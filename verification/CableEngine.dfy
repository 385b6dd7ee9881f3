/** The cable engine (pkg/cableengine/cableengine.go) and the list of connections that the libreswan
    driver lends it (pkg/cable/libreswan/libreswan.go). The engine walks the driver's own array while a
    disconnection shifts that array in place. */
module CableEngine {
  import opened Endpoints
  import opened IPFamilies

  /** A connection of the driver. `createdAt` is not a field of the source's connections: it records
      the creation timestamp of the endpoint a connection was made for, so that properties can speak
      of it, and no operation looks at it. */
  datatype Connection = Connection(endpoint: EndpointSpec, usingIP: IP, usingNAT: bool, createdAt: nat) {
    function GetFamily(): Family {
      usingIP.Family()
    }

    function Name(): string {
      endpoint.GetFamilyCableName(GetFamily())
    }
  }

  // ----- the driver's list -----

  /** The first connection that satisfies `p`, or the length of the list. */
  function FirstIndex(s: seq<Connection>, p: Connection -> bool): (i: nat)
    ensures i <= |s|
  {
    if s == [] || p(s[0]) then 0 else 1 + FirstIndex(s[1..], p)
  }

  lemma {:induction false} FirstIndexFinds(s: seq<Connection>, p: Connection -> bool)
    ensures var i := FirstIndex(s, p);
      (i < |s| ==> p(s[i])) && forall j :: 0 <= j < i ==> !p(s[j])
  {
    if s != [] && !p(s[0]) {
      FirstIndexFinds(s[1..], p);
      forall j | 0 <= j < FirstIndex(s, p) ensures !p(s[j]) {
        if j > 0 { assert s[j] == s[1..][j - 1]; }
      }
    }
  }

  lemma FirstIndexIs(s: seq<Connection>, p: Connection -> bool, k: nat)
    requires k <= |s| && (k < |s| ==> p(s[k]))
    requires forall j :: 0 <= j < k ==> !p(s[j])
    ensures FirstIndex(s, p) == k
  {
    FirstIndexFinds(s, p);
  }

  function CutAt(s: seq<Connection>, i: nat): seq<Connection> {
    if i < |s| then s[..i] + s[i + 1..] else s
  }

  function IsCable(cableName: string, family: Family): Connection -> bool {
    (c: Connection) => c.endpoint.cableName == cableName && c.GetFamily() == family
  }

  function IsSlot(clusterID: string, family: Family): Connection -> bool {
    (c: Connection) => c.endpoint.clusterID == clusterID && c.GetFamily() == family
  }

  /** The characters of a cable name that the driver puts into a connection's name. */
  predicate IsSafe(c: char) {
    'a' <= c <= 'z' || 'A' <= c <= 'Z' || '0' <= c <= '9' || c in "._-"
  }

  predicate ValidCableName(name: string) {
    1 <= |name| <= 200 && forall i :: 0 <= i < |name| ==> IsSafe(name[i])
  }

  /** What the driver checks before it connects, but for the texts of the subnets. */
  predicate ValidEndpointInputs(endpoint: EndpointSpec, localIP: IP, remoteIP: IP) {
    ValidCableName(endpoint.cableName) && remoteIP != NoIP && localIP != NoIP
  }

  predicate Admitted(local: EndpointSpec, info: NATEndpointInfo) {
    ValidEndpointInputs(info.endpoint.spec, local.GetPrivateIP(info.useFamily), info.useIP)
  }

  /** The driver's slice: the first `len` elements of an array. */
  class Driver {
    const localEndpoint: EndpointSpec
    var connections: array<Connection>
    var len: nat

    ghost predicate Valid()
      reads this
    {
      len <= connections.Length
    }

    ghost function Active(): seq<Connection>
      reads this, connections
      requires Valid()
    {
      connections[..len]
    }

    constructor (localEndpoint: EndpointSpec)
      ensures Valid() && Active() == [] && fresh(connections) && this.localEndpoint == localEndpoint
    {
      this.localEndpoint := localEndpoint;
      connections := new Connection[0];
      len := 0;
    }

    method RemoveAt(j: nat)
      requires Valid() && j < len
      modifies this`len, connections
      ensures Valid() && connections == old(connections) && len == old(len) - 1
      ensures connections[..] == ShiftedAt(old(connections[..]), j, old(len))
    {
      forall k | j <= k < len - 1 {
        connections[k] := connections[k + 1];
      }
      len := len - 1;
    }

    /** Shifts the elements after the first match left, in the same array. The last one also stays
        where it was, just past the new end. */
    method RemoveConnectionForEndpoint(cableName: string, family: Family)
      requires Valid()
      modifies this`len, connections
      ensures Valid() && connections == old(connections)
      ensures var i := FirstIndex(old(Active()), IsCable(cableName, family));
        if i < old(len) then len == old(len) - 1 && connections[..] == ShiftedAt(old(connections[..]), i, old(len))
        else len == old(len) && connections[..] == old(connections[..])
    {
      ghost var active := Active();
      FirstIndexFinds(active, IsCable(cableName, family));
      for j := 0 to len
        invariant connections[..] == old(connections[..]) && len == old(len)
        invariant forall k :: 0 <= k < j ==> !IsCable(cableName, family)(active[k])
      {
        if connections[j].endpoint.cableName == cableName && connections[j].GetFamily() == family {
          FirstIndexIs(active, IsCable(cableName, family), j);
          RemoveAt(j);
          return;
        }
      }
    }

    method DisconnectFromEndpoint(spec: EndpointSpec, family: Family, whackSucceeds: bool) returns (ok: bool)
      requires Valid()
      modifies this`len, connections
      ensures Valid() && connections == old(connections) && ok == whackSucceeds
      ensures var i := FirstIndex(old(Active()), IsCable(spec.cableName, family));
        if ok && i < old(len)
          then len == old(len) - 1 && connections[..] == ShiftedAt(old(connections[..]), i, old(len))
        else len == old(len) && connections[..] == old(connections[..])
      ensures Active() == if ok then CutAt(old(Active()), FirstIndex(old(Active()), IsCable(spec.cableName, family)))
        else old(Active())
    {
      if !whackSucceeds {
        return false;
      }
      ghost var was, n := connections[..], len;
      ghost var i := FirstIndex(was[..n], IsCable(spec.cableName, family));
      RemoveConnectionForEndpoint(spec.cableName, family);
      if i < n { ShiftedFront(was, i, n); }
      return true;
    }

    /** Refuses invalid inputs; otherwise appends, in place when there is room, in a larger array if not.
        `installs` tells whether everything else that it takes succeeds. */
    method ConnectToEndpoint(info: NATEndpointInfo, installs: bool) returns (ok: bool)
      requires Valid()
      modifies this, connections
      ensures Valid() && ok == (installs && Admitted(localEndpoint, info))
      ensures connections == old(connections) || fresh(connections)
      ensures Active() == old(Active()) + if ok then [Made(info)] else []
    {
      var localIP := localEndpoint.GetPrivateIP(info.useFamily);
      if !ValidEndpointInputs(info.endpoint.spec, localIP, info.useIP) {
        return false;
      }
      if !installs {
        return false;
      }
      ghost var before := Active();
      if len == connections.Length {
        var larger := new Connection[2 * len + 1];
        forall k | 0 <= k < len {
          larger[k] := connections[k];
        }
        connections := larger;
      }
      connections[len] := Made(info);
      len := len + 1;
      assert connections[..len - 1] == before;
      return true;
    }
  }

  function Made(info: NATEndpointInfo): Connection {
    Connection(info.endpoint.spec, info.useIP, info.useNAT, info.endpoint.creationTimestamp)
  }

  /** An array after the copy that removes element `i` of its first `n`. */
  function ShiftedAt(s: seq<Connection>, i: nat, n: nat): seq<Connection>
    requires i < n <= |s|
  {
    s[..i] + s[i + 1..n] + s[n - 1..]
  }

  // ----- the engine's steps, on values -----

  datatype State = State(pending: map<string, nat>, installed: map<string, nat>, running: bool, active: seq<Connection>)

  /** One step: the state after it, the connections it took down, whether it tried to connect, and
      whether it returned without an error. */
  datatype Step = Step(state: State, disconnected: seq<Connection>, connecting: bool, ok: bool)

  function NameOf(info: NATEndpointInfo): string {
    info.endpoint.spec.GetFamilyCableName(info.useFamily)
  }

  /** One pending installation less; none left is no entry. */
  function Taken(pending: map<string, nat>, name: string): map<string, nat>
    requires name in pending
  {
    if pending[name] <= 1 then pending - {name} else pending[name := pending[name] - 1]
  }

  /** The pre-existing cable stays: it is newer, or it is the same cable with the same connection info. */
  predicate Keeps(installed: map<string, nat>, existing: Connection, info: NATEndpointInfo) {
    var previous := if existing.Name() in installed then installed[existing.Name()] else 0;
    var created := info.endpoint.creationTimestamp;
    || created < previous
    || (created == previous && existing.Name() == NameOf(info) && existing.usingIP == info.useIP
        && existing.usingNAT == info.useNAT && existing.endpoint.backendConfig == info.endpoint.spec.backendConfig)
  }

  function Connecting(s: State, info: NATEndpointInfo, taken: seq<Connection>, ok: bool): Step {
    if !ok then Step(s, taken, true, false)
    else
      var installed := s.installed[NameOf(info) := info.endpoint.creationTimestamp];
      Step(s.(active := s.active + [Made(info)], installed := installed), taken, true, true)
  }

  /** What a ready message does: it uses up a pending installation, and at most one cable, the one in
      the slot of the same cluster and family, gives way to the new one. */
  function Ready(s: State, info: NATEndpointInfo, disconnects: bool, connects: bool): Step {
    if NameOf(info) !in s.pending then Step(s, [], false, true)
    else
      var taken := s.(pending := Taken(s.pending, NameOf(info)));
      var i := FirstIndex(s.active, IsSlot(info.endpoint.spec.clusterID, info.useFamily));
      if !s.running then Step(taken, [], false, true)
      else if i == |s.active| then Connecting(taken, info, [], connects)
      else if Keeps(s.installed, s.active[i], info) then Step(taken, [], false, true)
      else if !disconnects then Step(taken, [], false, false)
      else Connecting(taken.(active := CutAt(s.active, i)), info, [s.active[i]], connects)
  }

  function Install(s: State, spec: EndpointSpec, family: Family, local: EndpointSpec): State {
    var name := spec.GetFamilyCableName(family);
    if spec.clusterID == local.clusterID || spec == local then s
    else s.(pending := s.pending[name := (if name in s.pending then s.pending[name] else 0) + 1])
  }

  function Disconnected(s: State, spec: EndpointSpec, family: Family, disconnects: bool): Step {
    var name := spec.GetFamilyCableName(family);
    var i := FirstIndex(s.active, IsCable(spec.cableName, family));
    if name !in s.installed then Step(s, [], false, true)
    else if !disconnects then Step(s, [], false, false)
    else Step(s.(installed := s.installed - {name}, active := CutAt(s.active, i)),
              if i < |s.active| then [s.active[i]] else [], false, true)
  }

  function Remove(s: State, spec: EndpointSpec, family: Family, local: EndpointSpec, disconnects: bool): Step {
    if spec.clusterID == local.clusterID then Step(s, [], false, true)
    else Disconnected(s.(pending := s.pending - {spec.GetFamilyCableName(family)}), spec, family, disconnects)
  }

  // ----- what every step keeps -----

  /** At most one active connection per remote cluster and address family. */
  ghost predicate OnePerSlot(active: seq<Connection>) {
    forall i, j :: 0 <= i < j < |active| ==>
      active[i].endpoint.clusterID != active[j].endpoint.clusterID || active[i].GetFamily() != active[j].GetFamily()
  }

  ghost predicate NamedByCluster(active: seq<Connection>, clusterOf: string -> string) {
    forall i :: 0 <= i < |active| ==> clusterOf(active[i].endpoint.cableName) == active[i].endpoint.clusterID
  }

  /** Every active cable's name maps to its own timestamp. */
  ghost predicate Stamped(active: seq<Connection>, installed: map<string, nat>) {
    forall i :: 0 <= i < |active| ==>
      active[i].Name() in installed && installed[active[i].Name()] == active[i].createdAt
  }

  ghost predicate Positive(pending: map<string, nat>) {
    forall name :: name in pending ==> pending[name] >= 1
  }

  ghost predicate Inv(s: State, clusterOf: string -> string) {
    OnePerSlot(s.active) && NamedByCluster(s.active, clusterOf) && Stamped(s.active, s.installed) && Positive(s.pending)
  }

  /** A cable name determines its cluster. */
  predicate Clustered(info: NATEndpointInfo, clusterOf: string -> string) {
    clusterOf(info.endpoint.spec.cableName) == info.endpoint.spec.clusterID
  }

  /** The address, if there is one, belongs to the family. */
  predicate OfItsFamily(info: NATEndpointInfo) {
    info.useIP == NoIP || info.useIP.Family() == info.useFamily
  }

  /** What NAT discovery and the endpoint store guarantee. */
  predicate Sound(info: NATEndpointInfo, clusterOf: string -> string) {
    OfItsFamily(info) && Clustered(info, clusterOf)
  }

  // ----- the engine -----

  class Engine {
    const driver: Driver
    const local: EndpointSpec
    var running: bool
    var natDiscoveryPending: map<string, nat>
    var installedCables: map<string, nat>
    /** The cluster that a cable name belongs to. */
    ghost const clusterOf: string -> string

    ghost function Value(): State
      reads this, driver, driver.connections
      requires driver.Valid()
    {
      State(natDiscoveryPending, installedCables, running, driver.Active())
    }

    ghost predicate Valid()
      reads this, driver, driver.connections
    {
      driver.Valid() && driver.localEndpoint == local && Inv(Value(), clusterOf)
    }

    constructor (local: EndpointSpec, ghost clusterOf: string -> string)
      ensures Valid() && Value() == State(map[], map[], false, [])
      ensures this.local == local && this.clusterOf == clusterOf && fresh(driver) && fresh(driver.connections)
    {
      this.local := local;
      this.clusterOf := clusterOf;
      driver := new Driver(local);
      running, natDiscoveryPending, installedCables := false, map[], map[];
    }

    method StartEngine()
      requires Valid()
      modifies this`running
      ensures Valid() && Value() == old(Value()).(running := true)
    {
      running := true;
    }

    method Stop()
      requires Valid()
      modifies this`running
      ensures Valid() && Value() == old(Value()).(running := false)
    {
      running := false;
    }

    method ShouldProceedWithInstallation(familyCableName: string) returns (proceed: bool)
      requires Positive(natDiscoveryPending)
      modifies this`natDiscoveryPending
      ensures proceed == (familyCableName in old(natDiscoveryPending))
      ensures natDiscoveryPending == if proceed then Taken(old(natDiscoveryPending), familyCableName)
        else old(natDiscoveryPending)
    {
      if familyCableName !in natDiscoveryPending {
        return false;
      }
      natDiscoveryPending := natDiscoveryPending[familyCableName := natDiscoveryPending[familyCableName] - 1];
      if natDiscoveryPending[familyCableName] == 0 {
        natDiscoveryPending := natDiscoveryPending - {familyCableName};
      }
      return true;
    }

    /** Returns whether NAT discovery is asked about the endpoint. */
    method InstallCable(endpoint: Endpoint, family: Family) returns (asked: bool)
      requires Valid()
      modifies this`natDiscoveryPending
      ensures Valid() && Value() == Install(old(Value()), endpoint.spec, family, local)
      ensures asked <==> endpoint.spec.clusterID != local.clusterID && endpoint.spec != local
    {
      if endpoint.spec.clusterID == local.clusterID {
        return false;
      }
      if endpoint.spec == local {
        return false;
      }
      var name := endpoint.spec.GetFamilyCableName(family);
      natDiscoveryPending :=
        natDiscoveryPending[name := (if name in natDiscoveryPending then natDiscoveryPending[name] else 0) + 1];
      return true;
    }

    /** Compares timestamps, and for the same cable the connection info. */
    method KeepsPlace(active: Connection, info: NATEndpointInfo) returns (keeps: bool)
      ensures keeps == Keeps(installedCables, active, info)
    {
      var previous := if active.Name() in installedCables then installedCables[active.Name()] else 0;
      if info.endpoint.creationTimestamp < previous {
        return true;
      }
      if info.endpoint.creationTimestamp == previous && active.Name() == NameOf(info) {
        if active.usingIP == info.useIP && active.usingNAT == info.useNAT
          && active.endpoint.backendConfig == info.endpoint.spec.backendConfig {
          return true;
        }
      }
      return false;
    }

    /** Goes through the active connections as they were when it started and takes down those in the
        slot of the new cable, unless one of them keeps its place. */
    method ReleaseSlot(info: NATEndpointInfo, whackSucceeds: bool) returns (free: bool, ok: bool)
      requires Valid() && Clustered(info, clusterOf)
      modifies driver`len, driver.connections
      ensures driver.Valid() && driver.connections == old(driver.connections)
      ensures var active := old(driver.Active());
        var i := FirstIndex(active, IsSlot(info.endpoint.spec.clusterID, info.useFamily));
        if i == |active| then free && ok && driver.Active() == active
        else if Keeps(installedCables, active[i], info) then !free && ok && driver.Active() == active
        else if !whackSucceeds then !free && !ok && driver.Active() == active
        else free && ok && driver.Active() == CutAt(active, i)
    {
      var activeConnections, n := driver.connections, driver.len;
      ghost var was, before := activeConnections[..], driver.Active();
      ghost var slot := FirstIndex(before, IsSlot(info.endpoint.spec.clusterID, info.useFamily));
      FirstIndexFinds(before, IsSlot(info.endpoint.spec.clusterID, info.useFamily));
      ghost var released := false;
      for j := 0 to n
        invariant driver.connections == activeConnections && driver.Valid()
        invariant !released ==> driver.len == n && activeConnections[..] == was && j <= slot
        invariant released ==> slot < j && whackSucceeds && !Keeps(installedCables, before[slot], info)
        invariant released ==> driver.len == n - 1 && activeConnections[..] == ShiftedAt(was, slot, n)
      {
        var active := activeConnections[j];
        if released { NothingElseInSlot(was, n, slot, j, info); }
        if active.endpoint.clusterID != info.endpoint.spec.clusterID || active.GetFamily() != info.useFamily {
          continue;
        }
        assert j == slot && active == before[slot];
        var keeps := KeepsPlace(active, info);
        if keeps {
          return false, true;
        }
        CableIsSlot(before, slot, info, clusterOf);
        var disconnected := driver.DisconnectFromEndpoint(active.endpoint, info.useFamily, whackSucceeds);
        if !disconnected {
          return false, false;
        }
        released := true;
      }
      if released { ShiftedFront(was, slot, n); }
      return true, true;
    }

    method ConnectCable(info: NATEndpointInfo, installs: bool) returns (ok: bool)
      requires driver.Valid()
      modifies this`installedCables, driver, driver.connections
      ensures driver.Valid() && (driver.connections == old(driver.connections) || fresh(driver.connections))
      ensures ok == (installs && Admitted(driver.localEndpoint, info))
      ensures Value() == Connecting(old(Value()), info, [], ok).state
    {
      ok := driver.ConnectToEndpoint(info, installs);
      if !ok {
        return;
      }
      installedCables :=
        installedCables[info.endpoint.spec.GetFamilyCableName(info.useFamily) := info.endpoint.creationTimestamp];
    }

    method InstallCableWithNATInfo(info: NATEndpointInfo, disconnects: bool, connects: bool) returns (ok: bool)
      requires Valid() && Clustered(info, clusterOf)
      modifies this`natDiscoveryPending, this`installedCables, driver, driver.connections
      ensures driver.Valid() && (driver.connections == old(driver.connections) || fresh(driver.connections))
      ensures var step := Ready(old(Value()), info, disconnects, connects && Admitted(local, info));
        Value() == step.state && ok == step.ok
      ensures OfItsFamily(info) ==> Valid()
    {
      if OfItsFamily(info) {
        ReadyKeepsInv(Value(), info, disconnects, connects && Admitted(local, info), clusterOf);
      }
      var familyCableName := info.endpoint.spec.GetFamilyCableName(info.useFamily);
      var proceed := ShouldProceedWithInstallation(familyCableName);
      if !proceed || !running {
        return true;
      }
      TakingKeepsInv(old(Value()), NameOf(info), clusterOf);
      var free;
      free, ok := ReleaseSlot(info, disconnects);
      if free {
        ok := ConnectCable(info, connects);
      }
    }

    /** Returns also whether NAT discovery is told to forget the endpoint. */
    method RemoveCable(endpoint: Endpoint, family: Family, disconnects: bool) returns (forgets: bool, ok: bool)
      requires Valid()
      modifies this`natDiscoveryPending, this`installedCables, driver`len, driver.connections
      ensures Valid() && driver.connections == old(driver.connections)
      ensures var step := Remove(old(Value()), endpoint.spec, family, local, disconnects);
        Value() == step.state && ok == step.ok
      ensures forgets <==> endpoint.spec.clusterID != local.clusterID
    {
      RemoveKeepsInv(Value(), endpoint.spec, family, local, disconnects, clusterOf);
      if endpoint.spec.clusterID == local.clusterID {
        return false, true;
      }
      forgets := true;
      natDiscoveryPending := natDiscoveryPending - {endpoint.spec.GetFamilyCableName(family)};
      ok := DisconnectInstalled(endpoint.spec, family, disconnects);
    }

    /** Disconnects a cable that is installed, and then forgets it. */
    method DisconnectInstalled(spec: EndpointSpec, family: Family, disconnects: bool) returns (ok: bool)
      requires driver.Valid()
      modifies this`installedCables, driver`len, driver.connections
      ensures driver.Valid() && driver.connections == old(driver.connections)
      ensures var step := Disconnected(old(Value()), spec, family, disconnects);
        Value() == step.state && ok == step.ok
    {
      var familyCableName := spec.GetFamilyCableName(family);
      if familyCableName !in installedCables {
        return true;
      }
      ok := driver.DisconnectFromEndpoint(spec, family, disconnects);
      if !ok {
        return;
      }
      installedCables := installedCables - {familyCableName};
    }
  }

  lemma ShiftedFront(was: seq<Connection>, i: nat, n: nat)
    requires i < n <= |was|
    ensures ShiftedAt(was, i, n)[..n - 1] == CutAt(was[..n], i)
  {
  }

  /** After the shift neither the moved connections nor the stale last one are in the slot. */
  lemma NothingElseInSlot(was: seq<Connection>, n: nat, slot: nat, j: nat, info: NATEndpointInfo)
    requires slot < j < n <= |was| && OnePerSlot(was[..n])
    requires IsSlot(info.endpoint.spec.clusterID, info.useFamily)(was[..n][slot])
    ensures !IsSlot(info.endpoint.spec.clusterID, info.useFamily)(ShiftedAt(was, slot, n)[j])
  {
    var k := if j < n - 1 then j + 1 else n - 1;
    assert ShiftedAt(was, slot, n)[j] == was[..n][k];
  }

  /** Looking for the cable by name finds the connection in the slot. */
  lemma CableIsSlot(active: seq<Connection>, slot: nat, info: NATEndpointInfo, clusterOf: string -> string)
    requires OnePerSlot(active) && NamedByCluster(active, clusterOf) && slot < |active|
    requires IsSlot(info.endpoint.spec.clusterID, info.useFamily)(active[slot])
    ensures FirstIndex(active, IsCable(active[slot].endpoint.cableName, info.useFamily)) == slot
  {
    var isCable := IsCable(active[slot].endpoint.cableName, info.useFamily);
    forall k | 0 <= k < slot ensures !isCable(active[k]) {
    }
    FirstIndexIs(active, isCable, slot);
  }

  lemma CutKeepsInv(s: State, i: nat, clusterOf: string -> string)
    requires Inv(s, clusterOf)
    ensures Inv(s.(active := CutAt(s.active, i)), clusterOf)
  {
  }

  lemma ConnectKeepsInv(s: State, info: NATEndpointInfo, clusterOf: string -> string)
    requires Inv(s, clusterOf) && Clustered(info, clusterOf) && info.useIP.Family() == info.useFamily
    requires forall i :: 0 <= i < |s.active| ==> !IsSlot(info.endpoint.spec.clusterID, info.useFamily)(s.active[i])
    ensures Inv(Connecting(s, info, [], true).state, clusterOf)
  {
    forall i | 0 <= i < |s.active| ensures s.active[i].Name() != NameOf(info) {
      if s.active[i].Name() == NameOf(info) {
        FamilyCableNameInjective(s.active[i].endpoint, s.active[i].GetFamily(), info.endpoint.spec, info.useFamily);
      }
    }
  }

  lemma ReadyKeepsInv(s: State, info: NATEndpointInfo, disconnects: bool, connects: bool, clusterOf: string -> string)
    requires Inv(s, clusterOf) && Sound(info, clusterOf) && (connects ==> info.useIP != NoIP)
    ensures Inv(Ready(s, info, disconnects, connects).state, clusterOf)
  {
    var isSlot := IsSlot(info.endpoint.spec.clusterID, info.useFamily);
    var i := FirstIndex(s.active, isSlot);
    FirstIndexFinds(s.active, isSlot);
    if NameOf(info) in s.pending {
      var taken := s.(pending := Taken(s.pending, NameOf(info)));
      assert Inv(taken, clusterOf);
      CutKeepsInv(taken, i, clusterOf);
      if connects {
        if i == |s.active| {
          ConnectKeepsInv(taken, info, clusterOf);
        } else {
          SlotIsEmptied(s.active, i, isSlot);
          ConnectKeepsInv(taken.(active := CutAt(s.active, i)), info, clusterOf);
        }
      }
    }
  }

  lemma SlotIsEmptied(active: seq<Connection>, i: nat, isSlot: Connection -> bool)
    requires i < |active| && forall k :: 0 <= k < |active| && k != i ==> !isSlot(active[k])
    ensures forall k :: 0 <= k < |CutAt(active, i)| ==> !isSlot(CutAt(active, i)[k])
  {
  }

  lemma TakingKeepsInv(s: State, name: string, clusterOf: string -> string)
    requires Inv(s, clusterOf) && name in s.pending
    ensures Inv(s.(pending := Taken(s.pending, name)), clusterOf)
  {
  }

  ghost predicate NoneNamed(active: seq<Connection>, name: string) {
    forall k :: 0 <= k < |active| ==> active[k].Name() != name
  }

  /** Without its connection, no active connection has the name of a cable any more. */
  lemma NameGone(active: seq<Connection>, spec: EndpointSpec, family: Family, clusterOf: string -> string)
    requires OnePerSlot(active) && NamedByCluster(active, clusterOf)
    ensures var left := CutAt(active, FirstIndex(active, IsCable(spec.cableName, family)));
      NoneNamed(left, spec.GetFamilyCableName(family))
  {
    var isCable := IsCable(spec.cableName, family);
    var i := FirstIndex(active, isCable);
    FirstIndexFinds(active, isCable);
    forall k | 0 <= k < |active| && k != i ensures active[k].Name() != spec.GetFamilyCableName(family) {
      if active[k].Name() == spec.GetFamilyCableName(family) {
        FamilyCableNameInjective(active[k].endpoint, active[k].GetFamily(), spec, family);
      }
    }
  }

  lemma CutAndForget(active: seq<Connection>, installed: map<string, nat>, i: nat, name: string)
    requires Stamped(active, installed)
    requires NoneNamed(CutAt(active, i), name)
    ensures Stamped(CutAt(active, i), installed - {name})
  {
  }

  lemma RemoveKeepsInv(s: State, spec: EndpointSpec, family: Family, local: EndpointSpec, disconnects: bool,
                       clusterOf: string -> string)
    requires Inv(s, clusterOf)
    ensures Inv(Remove(s, spec, family, local, disconnects).state, clusterOf)
  {
    var i := FirstIndex(s.active, IsCable(spec.cableName, family));
    NameGone(s.active, spec, family, clusterOf);
    CutAndForget(s.active, s.installed, i, spec.GetFamilyCableName(family));
    CutKeepsInv(s, i, clusterOf);
  }

  // ----- single steps -----

  /** A ready message takes down at most one cable: one in its own slot whose endpoint is not newer. */
  lemma DisplacedOnlyByNotOlder(s: State, info: NATEndpointInfo, disconnects: bool, connects: bool,
                                clusterOf: string -> string)
    requires Inv(s, clusterOf)
    ensures var step := Ready(s, info, disconnects, connects);
      && |step.disconnected| <= 1
      && (step.disconnected != [] ==>
            var c := step.disconnected[0];
            && IsSlot(info.endpoint.spec.clusterID, info.useFamily)(c) && c in s.active
            && c.createdAt <= info.endpoint.creationTimestamp && disconnects)
  {
    var isSlot := IsSlot(info.endpoint.spec.clusterID, info.useFamily);
    FirstIndexFinds(s.active, isSlot);
    var i := FirstIndex(s.active, isSlot);
    assert i < |s.active| ==> s.active[i].createdAt == s.installed[s.active[i].Name()];
  }

  /** Every other active connection stays, in order, and only the new one can be added, last. */
  lemma OthersUntouched(s: State, info: NATEndpointInfo, disconnects: bool, connects: bool)
    ensures var step := Ready(s, info, disconnects, connects);
      var i := FirstIndex(s.active, IsSlot(info.endpoint.spec.clusterID, info.useFamily));
      var left := if step.disconnected == [] then s.active else CutAt(s.active, i);
      step.state.active == if step.connecting && connects then left + [Made(info)] else left
  {
  }

  /** One connection per slot is kept exactly when the new connection does not come with the address of
      another family into a slot that is taken: only the slot of the message's own family is released. */
  lemma OnePerSlotKeptIff(s: State, info: NATEndpointInfo, disconnects: bool, connects: bool,
                          clusterOf: string -> string)
    requires Inv(s, clusterOf) && (connects ==> info.useIP != NoIP)
    ensures var step := Ready(s, info, disconnects, connects);
      OnePerSlot(step.state.active) <==>
        !(step.connecting && connects && !OfItsFamily(info)
          && exists c :: c in s.active && IsSlot(info.endpoint.spec.clusterID, info.useIP.Family())(c))
  {
    var isSlot := IsSlot(info.endpoint.spec.clusterID, info.useFamily);
    var i := FirstIndex(s.active, isSlot);
    var step := Ready(s, info, disconnects, connects);
    FirstIndexFinds(s.active, isSlot);
    CutKeepsInv(s, i, clusterOf);
    if step.connecting && connects {
      var left := if i == |s.active| then s.active else CutAt(s.active, i);
      assert step.state.active == left + [Made(info)];
      SnocOnePerSlot(left, Made(info));
      if !OfItsFamily(info) {
        LeftInSlot(s.active, i, info.endpoint.spec.clusterID, info.useIP.Family());
      } else if i < |s.active| {
        SlotIsEmptied(s.active, i, isSlot);
      }
    }
  }

  lemma SnocOnePerSlot(active: seq<Connection>, c: Connection)
    requires OnePerSlot(active)
    ensures OnePerSlot(active + [c]) <==> forall d :: d in active ==> !IsSlot(c.endpoint.clusterID, c.GetFamily())(d)
  {
    if d :| d in active && IsSlot(c.endpoint.clusterID, c.GetFamily())(d) {
      var k :| 0 <= k < |active| && active[k] == d;
      assert (active + [c])[k] == d && (active + [c])[|active|] == c;
    } else {
      forall i, j | 0 <= i < j < |active + [c]|
        ensures var a, b := (active + [c])[i], (active + [c])[j];
          a.endpoint.clusterID != b.endpoint.clusterID || a.GetFamily() != b.GetFamily()
      {
        if j == |active| { assert active[i] in active; }
      }
    }
  }

  lemma LeftInSlot(active: seq<Connection>, i: nat, clusterID: string, family: Family)
    requires i < |active| ==> !IsSlot(clusterID, family)(active[i])
    ensures (exists c :: c in active && IsSlot(clusterID, family)(c))
      <==> exists c :: c in CutAt(active, i) && IsSlot(clusterID, family)(c)
  {
    if c :| c in active && IsSlot(clusterID, family)(c) {
      var k :| 0 <= k < |active| && active[k] == c;
      assert i < |active| ==> CutAt(active, i)[if k < i then k else k - 1] == c;
      assert c in CutAt(active, i);
    }
  }

  lemma OnlyMadeIsNew(s: State, info: NATEndpointInfo, disconnects: bool, connects: bool)
    ensures forall c :: c in Ready(s, info, disconnects, connects).state.active ==>
      c in s.active || (c == Made(info) && connects)
  {
    OthersUntouched(s, info, disconnects, connects);
  }

  ghost predicate InSlot(active: seq<Connection>, c: Connection, clusterID: string, family: Family) {
    c in active && c.endpoint.clusterID == clusterID && c.GetFamily() == family
  }

  /** After a removal that succeeds no active connection has the name; other cables are untouched. */
  lemma RemovedIsGone(s: State, spec: EndpointSpec, family: Family, local: EndpointSpec, disconnects: bool,
                      clusterOf: string -> string)
    requires Inv(s, clusterOf) && spec.clusterID != local.clusterID
    requires Remove(s, spec, family, local, disconnects).ok
    ensures var step := Remove(s, spec, family, local, disconnects);
      && NoneNamed(step.state.active, spec.GetFamilyCableName(family))
      && spec.GetFamilyCableName(family) !in step.state.pending
        && spec.GetFamilyCableName(family) !in step.state.installed
      && step.state.active == CutAt(s.active, FirstIndex(s.active, IsCable(spec.cableName, family)))
  {
    var name := spec.GetFamilyCableName(family);
    var isCable := IsCable(spec.cableName, family);
    NameGone(s.active, spec, family, clusterOf);
    FirstIndexFinds(s.active, isCable);
    var i := FirstIndex(s.active, isCable);
    assert i < |s.active| ==> s.active[i].Name() == name;
  }

  // ----- whole runs -----

  datatype Event =
    | InstallCable(endpoint: Endpoint, family: Family)
    | RemoveCable(endpoint: Endpoint, family: Family, disconnects: bool)
    | ReadyMessage(info: NATEndpointInfo, disconnects: bool, connects: bool)
    | Start
    | Stop

  function Next(s: State, e: Event, local: EndpointSpec): State {
    match e
    case InstallCable(endpoint, family) => Install(s, endpoint.spec, family, local)
    case RemoveCable(endpoint, family, disconnects) => Remove(s, endpoint.spec, family, local, disconnects).state
    case ReadyMessage(info, disconnects, connects) =>
      Ready(s, info, disconnects, connects && Admitted(local, info)).state
    case Start => s.(running := true)
    case Stop => s.(running := false)
  }

  function Run(events: seq<Event>, local: EndpointSpec): State {
    if events == [] then State(map[], map[], false, [])
    else Next(Run(events[..|events| - 1], local), events[|events| - 1], local)
  }

  ghost predicate SoundEvents(events: seq<Event>, clusterOf: string -> string) {
    forall i :: 0 <= i < |events| && events[i].ReadyMessage? ==> Sound(events[i].info, clusterOf)
  }

  lemma InstallKeepsInv(s: State, spec: EndpointSpec, family: Family, local: EndpointSpec, clusterOf: string -> string)
    requires Inv(s, clusterOf)
    ensures Inv(Install(s, spec, family, local), clusterOf)
  {
  }

  /** In every reachable state, whatever the interleaving and the failures. */
  lemma {:induction false} RunsKeepInv(events: seq<Event>, local: EndpointSpec, clusterOf: string -> string)
    requires SoundEvents(events, clusterOf)
    ensures Inv(Run(events, local), clusterOf)
  {
    if events != [] {
      var n := |events| - 1;
      RunsKeepInv(events[..n], local, clusterOf);
      var s := Run(events[..n], local);
      match events[n]
      case InstallCable(endpoint, family) => InstallKeepsInv(s, endpoint.spec, family, local, clusterOf);
      case RemoveCable(endpoint, family, disconnects) =>
        RemoveKeepsInv(s, endpoint.spec, family, local, disconnects, clusterOf);
      case ReadyMessage(info, disconnects, connects) =>
        ReadyKeepsInv(s, info, disconnects, connects && Admitted(local, info), clusterOf);
      case Start =>
      case Stop =>
    }
  }

  // ----- when a slot stays taken -----

  ghost predicate SlotTaken(active: seq<Connection>, clusterID: string, family: Family) {
    exists c :: InSlot(active, c, clusterID, family)
  }

  /** The cable is older than the endpoint, or as old but another cable or one with other connection info. */
  predicate GivesWay(c: Connection, info: NATEndpointInfo) {
    || c.createdAt < info.endpoint.creationTimestamp
    || (c.createdAt == info.endpoint.creationTimestamp
        && (c.endpoint.GetFamilyCableName(c.usingIP.Family()) != info.endpoint.spec.GetFamilyCableName(info.useFamily)
            || c.usingIP != info.useIP || c.usingNAT != info.useNAT
            || c.endpoint.backendConfig != info.endpoint.spec.backendConfig))
  }

  /** The message is for the slot of c, is awaited, and takes c down; but the driver refuses the new cable
      or fails to connect it. */
  predicate LosesTo(s: State, c: Connection, info: NATEndpointInfo, disconnects: bool, connects: bool) {
    && IsSlot(info.endpoint.spec.clusterID, info.useFamily)(c)
    && NameOf(info) in s.pending && s.running && disconnects && GivesWay(c, info) && !connects
  }

  predicate TakesDown(c: Connection, spec: EndpointSpec, family: Family, local: EndpointSpec, disconnects: bool) {
    spec.clusterID != local.clusterID && disconnects && IsCable(spec.cableName, family)(c)
  }

  /** The cases in which an event leaves the slot of c without a cable. */
  predicate EmptiesSlot(s: State, e: Event, local: EndpointSpec, c: Connection) {
    match e
    case ReadyMessage(info, disconnects, connects) =>
      LosesTo(s, c, info, disconnects, connects && Admitted(local, info))
    case RemoveCable(endpoint, family, disconnects) => TakesDown(c, endpoint.spec, family, local, disconnects)
    case _ => false
  }

  /** Without c, its slot is empty. */
  lemma CutEmptiesSlot(active: seq<Connection>, i: nat)
    requires OnePerSlot(active) && i < |active|
    ensures !SlotTaken(CutAt(active, i), active[i].endpoint.clusterID, active[i].GetFamily())
  {
    var isSlot := IsSlot(active[i].endpoint.clusterID, active[i].GetFamily());
    assert forall k :: 0 <= k < |active| && k != i ==> !isSlot(active[k]);
    SlotIsEmptied(active, i, isSlot);
  }

  /** A cable that is not the one cut stays. */
  lemma StaysWithout(active: seq<Connection>, i: nat, c: Connection)
    requires c in active && (i < |active| ==> active[i] != c)
    ensures c in CutAt(active, i)
  {
    var k :| 0 <= k < |active| && active[k] == c;
    assert i < |active| ==> CutAt(active, i)[if k < i then k else k - 1] == c;
  }

  lemma IsFirstInSlot(active: seq<Connection>, c: Connection)
    requires OnePerSlot(active) && c in active
    ensures var i := FirstIndex(active, IsSlot(c.endpoint.clusterID, c.GetFamily()));
      i < |active| && active[i] == c
  {
    var isSlot := IsSlot(c.endpoint.clusterID, c.GetFamily());
    var k :| 0 <= k < |active| && active[k] == c;
    FirstIndexIs(active, isSlot, k);
  }

  /** The recorded timestamp is that of the cable. */
  lemma GivesWayUnlessKept(s: State, info: NATEndpointInfo, c: Connection)
    requires Stamped(s.active, s.installed) && c in s.active
    ensures GivesWay(c, info) <==> !Keeps(s.installed, c, info)
  {
  }

  /** A message for the slot of c. */
  lemma OwnSlotAfter(s: State, info: NATEndpointInfo, disconnects: bool, connects: bool, c: Connection)
    requires OnePerSlot(s.active) && Stamped(s.active, s.installed)
    requires c in s.active && IsSlot(info.endpoint.spec.clusterID, info.useFamily)(c)
    requires OfItsFamily(info) && (connects ==> info.useIP != NoIP)
    ensures SlotTaken(Ready(s, info, disconnects, connects).state.active, c.endpoint.clusterID, c.GetFamily())
      <==> !LosesTo(s, c, info, disconnects, connects)
  {
    var after := Ready(s, info, disconnects, connects).state.active;
    var i := FirstIndex(s.active, IsSlot(c.endpoint.clusterID, c.GetFamily()));
    IsFirstInSlot(s.active, c);
    GivesWayUnlessKept(s, info, c);
    CutEmptiesSlot(s.active, i);
    if LosesTo(s, c, info, disconnects, connects) {
      assert after == CutAt(s.active, i);
    } else if after == s.active {
      assert InSlot(after, c, c.endpoint.clusterID, c.GetFamily());
    } else {
      assert after == CutAt(s.active, i) + [Made(info)];
      assert after[|after| - 1] == Made(info);
      assert InSlot(after, Made(info), c.endpoint.clusterID, c.GetFamily());
    }
  }

  /** What an awaited message does to the cable in its slot: a cable that does not give way is not touched, so
      the same endpoint announced again with the same connection info never interrupts its tunnel; one that
      does is disconnected, and then the new one is connected. */
  lemma CableGivesWayIff(s: State, info: NATEndpointInfo, disconnects: bool, connects: bool, local: EndpointSpec,
                         clusterOf: string -> string, c: Connection)
    requires Inv(s, clusterOf) && c in s.active && s.running && NameOf(info) in s.pending
    requires c.endpoint.clusterID == info.endpoint.spec.clusterID && c.usingIP.Family() == info.useFamily
    ensures var step := Ready(s, info, disconnects, connects && Admitted(local, info));
      && Next(s, ReadyMessage(info, disconnects, connects), local) == step.state
      && (!GivesWay(c, info) ==> step.disconnected == [] && !step.connecting && step.ok
                                 && step.state.active == s.active && step.state.installed == s.installed)
      && (GivesWay(c, info) && !disconnects ==> step.disconnected == [] && !step.connecting && !step.ok
                                                && step.state.active == s.active && step.state.installed == s.installed)
      && (GivesWay(c, info) && disconnects ==> step.disconnected == [c] && step.connecting
                                               && step.ok == (connects && Admitted(local, info)))
  {
    IsFirstInSlot(s.active, c);
    GivesWayUnlessKept(s, info, c);
  }

  /** A message for another slot leaves c alone. */
  lemma OtherSlotAfter(s: State, info: NATEndpointInfo, disconnects: bool, connects: bool, c: Connection)
    requires c in s.active && !IsSlot(info.endpoint.spec.clusterID, info.useFamily)(c)
    ensures c in Ready(s, info, disconnects, connects).state.active
  {
    var i := FirstIndex(s.active, IsSlot(info.endpoint.spec.clusterID, info.useFamily));
    FirstIndexFinds(s.active, IsSlot(info.endpoint.spec.clusterID, info.useFamily));
    StaysWithout(s.active, i, c);
    OthersUntouched(s, info, disconnects, connects);
  }

  lemma SlotAfterRemoval(s: State, spec: EndpointSpec, family: Family, local: EndpointSpec, disconnects: bool,
                         clusterOf: string -> string, c: Connection)
    requires Inv(s, clusterOf) && c in s.active
    ensures SlotTaken(Remove(s, spec, family, local, disconnects).state.active, c.endpoint.clusterID, c.GetFamily())
      <==> !TakesDown(c, spec, family, local, disconnects)
  {
    var active := s.active;
    var after := Remove(s, spec, family, local, disconnects).state.active;
    var isCable := IsCable(spec.cableName, family);
    var i := FirstIndex(active, isCable);
    FirstIndexFinds(active, isCable);
    if isCable(c) {
      var k :| 0 <= k < |active| && active[k] == c;
      assert c.Name() == spec.GetFamilyCableName(family) && c.Name() in s.installed;
      NamesakeIs(active, c, i, clusterOf);
      CutEmptiesSlot(active, i);
    } else {
      StaysWithout(active, i, c);
    }
    assert c in after ==> InSlot(after, c, c.endpoint.clusterID, c.GetFamily());
  }

  /** Looking for a cable by name and family finds the only one there is. */
  lemma NamesakeIs(active: seq<Connection>, c: Connection, i: nat, clusterOf: string -> string)
    requires OnePerSlot(active) && NamedByCluster(active, clusterOf) && c in active
    requires i == FirstIndex(active, IsCable(c.endpoint.cableName, c.GetFamily()))
    ensures i < |active| && active[i] == c
  {
    FirstIndexFinds(active, IsCable(c.endpoint.cableName, c.GetFamily()));
    var k :| 0 <= k < |active| && active[k] == c;
    assert i <= k && active[i].endpoint.clusterID == c.endpoint.clusterID;
    SameSlotSame(active, c, active[i]);
  }

  /** Where there is a cable to a cluster in a family, there still is one after any event, the same or
      another, exactly when the event is none of the emptying cases. */
  lemma SlotStaysTakenIff(s: State, e: Event, local: EndpointSpec, clusterOf: string -> string, c: Connection)
    requires Inv(s, clusterOf) && c in s.active && (e.ReadyMessage? ==> Sound(e.info, clusterOf))
    ensures SlotTaken(Next(s, e, local).active, c.endpoint.clusterID, c.GetFamily()) <==> !EmptiesSlot(s, e, local, c)
  {
    match e
    case ReadyMessage(info, disconnects, connects) =>
      if IsSlot(info.endpoint.spec.clusterID, info.useFamily)(c) {
        OwnSlotAfter(s, info, disconnects, connects && Admitted(local, info), c);
      } else {
        OtherSlotAfter(s, info, disconnects, connects && Admitted(local, info), c);
        assert InSlot(Next(s, e, local).active, c, c.endpoint.clusterID, c.GetFamily());
      }
    case RemoveCable(endpoint, family, disconnects) =>
      SlotAfterRemoval(s, endpoint.spec, family, local, disconnects, clusterOf, c);
    case _ =>
      assert InSlot(Next(s, e, local).active, c, c.endpoint.clusterID, c.GetFamily());
  }

  // ----- a run that ends with an empty slot -----

  lemma RunSnoc(events: seq<Event>, e: Event, local: EndpointSpec)
    ensures Run(events + [e], local) == Next(Run(events, local), e, local)
  {
    assert (events + [e])[..|events|] == events;
  }

  function WithOne(info: NATEndpointInfo): State {
    State(map[], map[NameOf(info) := info.endpoint.creationTimestamp], true, [Made(info)])
  }

  /** One cable is asked for, announced and connected. */
  function Connected(info: NATEndpointInfo): seq<Event> {
    [Start] + [InstallCable(info.endpoint, info.useFamily)] + [ReadyMessage(info, true, true)]
  }

  /** And then another, which is announced too. */
  function Followed(first: NATEndpointInfo, second: NATEndpointInfo): seq<Event> {
    Connected(first) + [InstallCable(second.endpoint, second.useFamily)] + [ReadyMessage(second, true, true)]
  }

  lemma ConnectedRun(info: NATEndpointInfo, local: EndpointSpec)
    requires Admitted(local, info) && info.endpoint.spec.clusterID != local.clusterID
    ensures Run(Connected(info), local) == WithOne(info)
  {
    var started, install := State(map[], map[], true, []), InstallCable(info.endpoint, info.useFamily);
    RunSnoc([], Start, local);
    assert [] + [Start] == [Start];
    RunSnoc([Start], install, local);
    var asked := Next(started, install, local);
    assert asked.pending == map[NameOf(info) := 1] && asked == started.(pending := map[NameOf(info) := 1]);
    RunSnoc([Start] + [install], ReadyMessage(info, true, true), local);
    assert map[NameOf(info) := 1] - {NameOf(info)} == map[];
  }

  lemma SuccessorRefused(first: NATEndpointInfo, second: NATEndpointInfo, local: EndpointSpec)
    requires second.endpoint.spec.clusterID == first.endpoint.spec.clusterID != local.clusterID
    requires first.useIP.Family() == first.useFamily == second.useFamily && !Admitted(local, second)
    requires first.endpoint.creationTimestamp < second.endpoint.creationTimestamp
    ensures var asked := Next(WithOne(first), InstallCable(second.endpoint, second.useFamily), local);
      Next(asked, ReadyMessage(second, true, true), local).active == []
  {
    var s := WithOne(first);
    var asked := Next(s, InstallCable(second.endpoint, second.useFamily), local);
    assert asked.active == s.active && asked.installed == s.installed && NameOf(second) in asked.pending;
    assert s.active[0].Name() == NameOf(first);
    assert !Keeps(asked.installed, s.active[0], second);
    assert FirstIndex(s.active, IsSlot(second.endpoint.spec.clusterID, second.useFamily)) == 0;
    assert CutAt(s.active, 0) == [];
  }

  /** The only cable to a cluster is lost to a newer endpoint of it that the driver refuses, for example
      because no address was announced for it. */
  lemma RefusedSuccessorEmptiesSlot(first: NATEndpointInfo, second: NATEndpointInfo, local: EndpointSpec)
    requires Admitted(local, first) && !Admitted(local, second)
    requires second.endpoint.spec.clusterID == first.endpoint.spec.clusterID != local.clusterID
    requires first.useIP.Family() == first.useFamily == second.useFamily
    requires first.endpoint.creationTimestamp < second.endpoint.creationTimestamp
    ensures Run(Connected(first), local).active == [Made(first)]
    ensures Run(Followed(first, second), local).active == []
  {
    var install := InstallCable(second.endpoint, second.useFamily);
    ConnectedRun(first, local);
    RunSnoc(Connected(first), install, local);
    RunSnoc(Connected(first) + [install], ReadyMessage(second, true, true), local);
    SuccessorRefused(first, second, local);
  }

  /** When nothing fails, an awaited message that the driver admits leaves in its slot the new connection,
      or a cable of a newer endpoint, or the same cable with the same connection info. */
  lemma SlotAfterReady(s: State, info: NATEndpointInfo, local: EndpointSpec, clusterOf: string -> string)
    requires Inv(s, clusterOf) && Sound(info, clusterOf) && s.running && NameOf(info) in s.pending
    requires Admitted(local, info)
    ensures var after := Next(s, ReadyMessage(info, true, true), local);
      exists c :: InSlot(after.active, c, info.endpoint.spec.clusterID, info.useFamily)
        && (c == Made(info) || c.createdAt > info.endpoint.creationTimestamp
            || (c.Name() == NameOf(info) && c.createdAt == info.endpoint.creationTimestamp && c.usingIP == info.useIP
                && c.usingNAT == info.useNAT && c.endpoint.backendConfig == info.endpoint.spec.backendConfig))
  {
    var after := Ready(s, info, true, true).state;
    var i := FirstIndex(s.active, IsSlot(info.endpoint.spec.clusterID, info.useFamily));
    FirstIndexFinds(s.active, IsSlot(info.endpoint.spec.clusterID, info.useFamily));
    if i < |s.active| && Keeps(s.installed, s.active[i], info) {
      assert after.active[i] == s.active[i];
      assert InSlot(after.active, s.active[i], info.endpoint.spec.clusterID, info.useFamily);
    } else {
      assert after.active[|after.active| - 1] == Made(info);
      assert InSlot(after.active, Made(info), info.endpoint.spec.clusterID, info.useFamily);
    }
  }

  lemma NextHasAddresses(s: State, e: Event, local: EndpointSpec)
    requires forall c :: c in s.active ==> c.usingIP != NoIP
    ensures forall c :: c in Next(s, e, local).active ==> c.usingIP != NoIP
  {
    match e
    case InstallCable(_, _) =>
    case RemoveCable(_, _, _) =>
    case ReadyMessage(info, disconnects, connects) =>
      OnlyMadeIsNew(s, info, disconnects, connects && Admitted(local, info));
    case Start =>
    case Stop =>
  }

  /** No connection is ever made without an address. */
  lemma {:induction false} ActiveHaveAddresses(events: seq<Event>, local: EndpointSpec)
    ensures forall c :: c in Run(events, local).active ==> c.usingIP != NoIP
  {
    if events != [] {
      var n := |events| - 1;
      ActiveHaveAddresses(events[..n], local);
      NextHasAddresses(Run(events[..n], local), events[n], local);
    }
  }

  /** An installation that is not skipped. */
  predicate Asks(e: Event, name: string, local: EndpointSpec) {
    && e.InstallCable? && e.endpoint.spec.GetFamilyCableName(e.family) == name
    && e.endpoint.spec.clusterID != local.clusterID && e.endpoint.spec != local
  }

  predicate Removes(e: Event, name: string, local: EndpointSpec) {
    e.RemoveCable? && e.endpoint.spec.GetFamilyCableName(e.family) == name
      && e.endpoint.spec.clusterID != local.clusterID
  }

  predicate Accepts(s: State, e: Event, name: string) {
    e.ReadyMessage? && NameOf(e.info) == name && name in s.pending
  }

  predicate Connects(s: State, e: Event, name: string) {
    e.ReadyMessage? && NameOf(e.info) == name && Ready(s, e.info, e.disconnects, e.connects).connecting
  }

  function PendingCount(s: State, name: string): nat {
    if name in s.pending then s.pending[name] else 0
  }

  /** Installations asked for, ready messages accepted and connections tried, for one cable name, since
      it was last removed. */
  datatype Tally = Tally(asked: nat, accepted: nat, tried: nat)

  function SinceRemoval(events: seq<Event>, name: string, local: EndpointSpec): Tally {
    if events == [] then Tally(0, 0, 0)
    else
      var n, e := |events| - 1, events[|events| - 1];
      if Removes(e, name, local) then Tally(0, 0, 0)
      else Counted(events, n, name, local, SinceRemoval(events[..n], name, local))
  }

  function Counted(events: seq<Event>, n: nat, name: string, local: EndpointSpec, before: Tally): Tally
    requires n < |events|
  {
    var s, e := Run(events[..n], local), events[n];
    Tally(before.asked + (if Asks(e, name, local) then 1 else 0),
          before.accepted + (if Accepts(s, e, name) then 1 else 0),
          before.tried + (if Connects(s, e, name) then 1 else 0))
  }

  /** The same over the whole run. */
  function InAll(events: seq<Event>, name: string, local: EndpointSpec): Tally {
    if events == [] then Tally(0, 0, 0)
    else
      var n := |events| - 1;
      Counted(events, n, name, local, InAll(events[..n], name, local))
  }

  lemma PendingStep(s: State, e: Event, name: string, local: EndpointSpec)
    requires Positive(s.pending)
    ensures PendingCount(Next(s, e, local), name) ==
      if Removes(e, name, local) then 0
      else PendingCount(s, name) + (if Asks(e, name, local) then 1 else 0) - (if Accepts(s, e, name) then 1 else 0)
  {
    match e
    case InstallCable(endpoint, family) =>
    case RemoveCable(endpoint, family, disconnects) =>
    case ReadyMessage(info, disconnects, connects) =>
      ReadyTakesOne(s, info, disconnects, connects && Admitted(local, info), name);
    case Start =>
    case Stop =>
  }

  lemma ReadyTakesOne(s: State, info: NATEndpointInfo, disconnects: bool, connects: bool, name: string)
    requires Positive(s.pending)
    ensures PendingCount(Ready(s, info, disconnects, connects).state, name)
      == PendingCount(s, name) - (if NameOf(info) == name && name in s.pending then 1 else 0)
  {
  }

  lemma ConnectsAccepts(s: State, e: Event, name: string)
    ensures Connects(s, e, name) ==> Accepts(s, e, name) && s.running
  {
  }

  lemma PositiveStep(s: State, e: Event, local: EndpointSpec)
    requires Positive(s.pending)
    ensures Positive(Next(s, e, local).pending)
  {
    match e
    case InstallCable(endpoint, family) =>
    case RemoveCable(endpoint, family, disconnects) =>
    case ReadyMessage(info, disconnects, connects) =>
      ReadyKeepsPositive(s, info, disconnects, connects && Admitted(local, info));
    case Start =>
    case Stop =>
  }

  lemma ReadyKeepsPositive(s: State, info: NATEndpointInfo, disconnects: bool, connects: bool)
    requires Positive(s.pending)
    ensures Positive(Ready(s, info, disconnects, connects).state.pending)
  {
  }

  lemma {:induction false} PendingPositive(events: seq<Event>, local: EndpointSpec)
    ensures Positive(Run(events, local).pending)
  {
    if events != [] {
      PendingPositive(events[..|events| - 1], local);
      PositiveStep(Run(events[..|events| - 1], local), events[|events| - 1], local);
    }
  }

  /** Since the last removal of a cable, every installation asked for is still pending or was used by
      one ready message, and only those messages try to connect. */
  lemma {:induction false} InstallationsAreConserved(events: seq<Event>, name: string, local: EndpointSpec)
    ensures var t := SinceRemoval(events, name, local);
      PendingCount(Run(events, local), name) + t.accepted == t.asked && t.tried <= t.accepted
  {
    if events != [] {
      var n := |events| - 1;
      InstallationsAreConserved(events[..n], name, local);
      PendingPositive(events[..n], local);
      PendingStep(Run(events[..n], local), events[n], name, local);
      ConnectsAccepts(Run(events[..n], local), events[n], name);
    }
  }

  /** In every run, and so in every prefix of one, no more connections are tried than installations
      were asked for. */
  lemma {:induction false} NoMoreConnectsThanInstalls(events: seq<Event>, name: string, local: EndpointSpec)
    ensures var t := InAll(events, name, local);
      t.tried <= t.accepted <= t.asked - PendingCount(Run(events, local), name)
  {
    if events != [] {
      var n := |events| - 1;
      NoMoreConnectsThanInstalls(events[..n], name, local);
      PendingPositive(events[..n], local);
      PendingStep(Run(events[..n], local), events[n], name, local);
      ConnectsAccepts(Run(events[..n], local), events[n], name);
    }
  }

  /** Between the removal of a cable and the next installation nothing connects it, even when ready
      messages for it are still on their way. */
  lemma {:induction false} NoConnectAfterRemoval(events: seq<Event>, name: string, local: EndpointSpec, removal: nat,
                                                 n: nat)
    requires removal < n < |events| && Removes(events[removal], name, local)
    requires forall i :: removal < i < n ==> !Asks(events[i], name, local)
    ensures name !in Run(events[..n], local).pending
    ensures !Connects(Run(events[..n], local), events[n], name)
  {
    var m := n - 1;
    assert events[..n][..m] == events[..m] && events[..n][m] == events[m];
    PendingPositive(events[..m], local);
    PendingStep(Run(events[..m], local), events[m], name, local);
    PendingPositive(events[..n], local);
    if removal < m {
      NoConnectAfterRemoval(events, name, local, removal, m);
    }
    ConnectsAccepts(Run(events[..n], local), events[n], name);
  }

  /** No step leaves an older cable in a slot than the one it found there. */
  lemma SlotNeverGetsOlder(events: seq<Event>, e: Event, local: EndpointSpec, clusterOf: string -> string,
                           c: Connection, d: Connection)
    requires SoundEvents(events + [e], clusterOf)
    requires InSlot(Run(events, local).active, c, d.endpoint.clusterID, d.GetFamily())
    requires InSlot(Next(Run(events, local), e, local).active, d, c.endpoint.clusterID, c.GetFamily())
    ensures c.createdAt <= d.createdAt
  {
    var s := Run(events, local);
    forall i | 0 <= i < |events| && events[i].ReadyMessage? ensures Sound(events[i].info, clusterOf) {
      assert (events + [e])[i] == events[i];
    }
    RunsKeepInv(events, local, clusterOf);
    assert (events + [e])[|events|] == e;
    SlotStep(s, e, local, clusterOf, c, d);
  }

  lemma SlotStep(s: State, e: Event, local: EndpointSpec, clusterOf: string -> string, c: Connection, d: Connection)
    requires Inv(s, clusterOf) && (e.ReadyMessage? ==> Sound(e.info, clusterOf))
    requires InSlot(s.active, c, d.endpoint.clusterID, d.GetFamily())
    requires InSlot(Next(s, e, local).active, d, c.endpoint.clusterID, c.GetFamily())
    ensures c.createdAt <= d.createdAt
  {
    if d in s.active {
      SameSlotSame(s.active, c, d);
    } else {
      match e
      case InstallCable(endpoint, family) =>
      case RemoveCable(endpoint, family, disconnects) =>
      case ReadyMessage(info, disconnects, connects) =>
        ReadyBringsNotOlder(s, info, disconnects, connects && Admitted(local, info), clusterOf, c, d);
      case Start =>
      case Stop =>
    }
  }

  lemma SameSlotSame(active: seq<Connection>, c: Connection, d: Connection)
    requires OnePerSlot(active) && c in active && d in active
    requires c.endpoint.clusterID == d.endpoint.clusterID && c.GetFamily() == d.GetFamily()
    ensures c == d
  {
  }

  lemma ReadyBringsNotOlder(s: State, info: NATEndpointInfo, disconnects: bool, connects: bool,
                            clusterOf: string -> string, c: Connection, d: Connection)
    requires Inv(s, clusterOf) && Sound(info, clusterOf) && (connects ==> info.useIP != NoIP)
    requires c in s.active && c.endpoint.clusterID == d.endpoint.clusterID && c.GetFamily() == d.GetFamily()
    requires d !in s.active && d in Ready(s, info, disconnects, connects).state.active
    ensures c.createdAt <= d.createdAt
  {
    var isSlot := IsSlot(info.endpoint.spec.clusterID, info.useFamily);
    OthersUntouched(s, info, disconnects, connects);
    DisplacedOnlyByNotOlder(s, info, disconnects, connects, clusterOf);
    FirstIndexFinds(s.active, isSlot);
    var i := FirstIndex(s.active, isSlot);
    assert d == Made(info) && isSlot(c);
    if i < |s.active| { SameSlotSame(s.active, c, s.active[i]); }
  }

  // ----- removals -----

  /** What the removal of a cable answers: it fails exactly when there is something to disconnect in another
      cluster and the disconnection fails. Then the cable is still there, but no longer awaited. */
  lemma RemovalFailsIff(s: State, spec: EndpointSpec, family: Family, local: EndpointSpec, disconnects: bool)
    ensures var name, step := spec.GetFamilyCableName(family), Remove(s, spec, family, local, disconnects);
      && (!step.ok <==> spec.clusterID != local.clusterID && name in s.installed && !disconnects)
      && (spec.clusterID != local.clusterID ==> step.state.pending == s.pending - {name})
      && (!step.ok || spec.clusterID == local.clusterID ==>
            step.state.active == s.active && step.state.installed == s.installed)
      && step.state.running == s.running && !step.connecting
  {
  }

  /** After one that succeeds the cable is neither active nor installed. */
  lemma RemovalForgets(s: State, spec: EndpointSpec, family: Family, local: EndpointSpec, disconnects: bool,
                       clusterOf: string -> string)
    requires Inv(s, clusterOf) && spec.clusterID != local.clusterID
    requires Remove(s, spec, family, local, disconnects).ok
    ensures var name, after := spec.GetFamilyCableName(family), Remove(s, spec, family, local, disconnects).state;
      NoneNamed(after.active, name) && after.installed == s.installed - {name}
  {
    var name := spec.GetFamilyCableName(family);
    RemovalFailsIff(s, spec, family, local, disconnects);
    RemovedIsGone(s, spec, family, local, disconnects, clusterOf);
    if name !in s.installed {
      assert s.installed - {name} == s.installed;
    }
  }

  // ----- a stopped engine -----

  /** Whether the last start or stop was a start. */
  function LastStarted(events: seq<Event>): bool {
    if events == [] then false
    else
      var e := events[|events| - 1];
      if e.Start? then true else if e.Stop? then false else LastStarted(events[..|events| - 1])
  }

  lemma {:induction false} RunningIff(events: seq<Event>, local: EndpointSpec)
    ensures Run(events, local).running <==> LastStarted(events)
  {
    if events != [] {
      RunningIff(events[..|events| - 1], local);
    }
  }

  /** While it is stopped the engine touches no cable on a message, but the message is used up: the cable it
      would have connected needs to be asked for again. */
  lemma StoppedUsesUpMessages(events: seq<Event>, info: NATEndpointInfo, disconnects: bool, connects: bool,
                              local: EndpointSpec)
    requires !LastStarted(events)
    ensures var s := Run(events, local);
      var s' := Next(s, ReadyMessage(info, disconnects, connects), local);
      && s'.active == s.active && s'.installed == s.installed && !s'.running
      && forall name :: PendingCount(s', name) ==
           if name == NameOf(info) && PendingCount(s, name) > 0 then PendingCount(s, name) - 1
           else PendingCount(s, name)
  {
    RunningIff(events, local);
    PendingPositive(events, local);
  }

  // ----- what the driver accepts -----

  /** The edges of what a cable name may be: 1 to 200 letters, digits, dots, underscores and dashes. */
  lemma CableNameEdges(name: string)
    requires forall i :: 0 <= i < |name| ==> name[i] in ['a', 'z', 'A', 'Z', '0', '9', '.', '_', '-']
    ensures ValidCableName(name) <==> name != "" && |name| < 201
    ensures forall c :: c in ['`', '{', '@', '[', '/', ':', ' ', '\n'] ==> !ValidCableName(name + [c])
  {
    forall c | c in ['`', '{', '@', '[', '/', ':', ' ', '\n'] ensures !ValidCableName(name + [c]) {
      assert (name + [c])[|name|] == c;
    }
  }

  /** A cable with such a name is refused exactly when an address is missing at either end. */
  lemma RefusedForAddress(local: EndpointSpec, info: NATEndpointInfo)
    requires ValidCableName(info.endpoint.spec.cableName)
    ensures !Admitted(local, info) <==> info.useIP == NoIP || local.GetPrivateIP(info.useFamily) == NoIP
  {
  }
}
