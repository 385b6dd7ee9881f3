/** The state machine NAT discovery runs for each remote endpoint
    (pkg/natdiscovery/remote_endpoint.go). Times are nanoseconds; every step reads the clock once. */
module RemoteEndpoint {
  import opened Endpoints
  import opened IPFamilies

  const SECOND: nat := 1_000_000_000
  const RECHECK_TIME: nat := 2 * SECOND
  const TOTAL_TIMEOUT: nat := 60 * SECOND
  const TOTAL_TIMEOUT_LOAD_BALANCER: nat := 6 * SECOND
  const PUBLIC_TO_PRIVATE_FAILOVER_TIMEOUT: nat := SECOND

  datatype Phase = TestingPrivateAndPublicIPs | WaitingForResponse | SelectedPublicIP | SelectedPrivateIP

  /** The two addresses a request can be sent to, each with its own latest request number. */
  datatype Slot = PublicSlot | PrivateSlot

  /** The fields of a remote endpoint object. `serial` stands for the identity of the object: no two
      objects have the same, and no operation looks at it. */
  datatype Remote = Remote(serial: nat, endpoint: Endpoint, family: Family, phase: Phase,
                           lastCheck: nat, lastTransition: nat, started: nat, timeout: nat,
                           useIP: IP, useNAT: bool, lastPublicIPRequestID: nat, lastPrivateIPRequestID: nat,
                           usingLoadBalancer: bool) {
    function Name(): string {
      endpoint.spec.GetFamilyCableName(family)
    }

    function PublicIP(): IP {
      endpoint.spec.GetPublicIP(family)
    }

    function PrivateIP(): IP {
      endpoint.spec.GetPrivateIP(family)
    }

    function Info(): NATEndpointInfo {
      NATEndpointInfo(endpoint, useNAT, useIP, family)
    }

    predicate Complete() {
      phase == SelectedPublicIP || phase == SelectedPrivateIP
    }

    predicate TimedOut(now: nat) {
      now - started > timeout
    }

    predicate ShouldCheck(now: nat) {
      phase == TestingPrivateAndPublicIPs || (phase == WaitingForResponse && now - lastCheck > RECHECK_TIME)
    }

    /** The IP that goes with the selection. */
    predicate SelectionFits() {
      (phase == SelectedPublicIP ==> useIP == PublicIP()) && (phase == SelectedPrivateIP ==> useIP == PrivateIP())
    }

    /** How far the selection still is from the end. */
    function Rank(): nat {
      match phase
      case TestingPrivateAndPublicIPs => 3
      case WaitingForResponse => 2
      case SelectedPublicIP => 1
      case SelectedPrivateIP => 0
    }
  }

  function New(serial: nat, endpoint: Endpoint, family: Family, now: nat): Remote {
    var lb := endpoint.spec.backendConfig.usingLoadBalancer;
    Remote(serial, endpoint, family, TestingPrivateAndPublicIPs, 0, now, now,
           if lb then TOTAL_TIMEOUT_LOAD_BALANCER else TOTAL_TIMEOUT, NoIP, false, 0, 0, lb)
  }

  function Selected(r: Remote, phase: Phase, useIP: IP, useNAT: bool, now: nat): Remote {
    r.(phase := phase, useIP := useIP, useNAT := useNAT, lastTransition := now)
  }

  function Legacy(r: Remote, now: nat): Remote {
    if r.usingLoadBalancer || r.endpoint.spec.natEnabled then Selected(r, SelectedPublicIP, r.PublicIP(), true, now)
    else Selected(r, SelectedPrivateIP, r.PrivateIP(), false, now)
  }

  function CheckSent(r: Remote, now: nat): Remote {
    r.(phase := if r.phase == TestingPrivateAndPublicIPs then WaitingForResponse else r.phase, lastCheck := now)
  }

  /** A response to the public request counts while waiting. */
  predicate TakesPublic(r: Remote) {
    r.phase == WaitingForResponse
  }

  /** A response to the private request counts while waiting, and for a while after the public IP was selected. */
  predicate TakesPrivate(r: Remote, now: nat) {
    || r.phase == WaitingForResponse
    || (r.phase == SelectedPublicIP && now - r.lastTransition <= PUBLIC_TO_PRIVATE_FAILOVER_TIMEOUT)
  }

  function ToPublic(r: Remote, useNAT: bool, now: nat): Remote {
    if TakesPublic(r) then Selected(r, SelectedPublicIP, r.PublicIP(), useNAT, now) else r
  }

  function ToPrivate(r: Remote, useNAT: bool, now: nat): Remote {
    if TakesPrivate(r, now) then Selected(r, SelectedPrivateIP, r.PrivateIP(), useNAT, now) else r
  }

  function SlotOf(r: Remote, slot: Slot): nat {
    match slot case PublicSlot => r.lastPublicIPRequestID case PrivateSlot => r.lastPrivateIPRequestID
  }

  function WithSlot(r: Remote, slot: Slot, number: nat): Remote {
    match slot
    case PublicSlot => r.(lastPublicIPRequestID := number)
    case PrivateSlot => r.(lastPrivateIPRequestID := number)
  }

  class RemoteEndpointNAT {
    ghost const serial: nat
    const endpoint: Endpoint
    const family: Family
    var phase: Phase
    var lastCheck: nat
    var lastTransition: nat
    const started: nat
    const timeout: nat
    var useIP: IP
    var lastPublicIPRequestID: nat
    var lastPrivateIPRequestID: nat
    var useNAT: bool
    const usingLoadBalancer: bool

    ghost function Value(): Remote
      reads this
    {
      Remote(serial, endpoint, family, phase, lastCheck, lastTransition, started, timeout, useIP, useNAT,
             lastPublicIPRequestID, lastPrivateIPRequestID, usingLoadBalancer)
    }

    constructor (ghost serial: nat, endpoint: Endpoint, family: Family, now: nat)
      ensures Value() == New(serial, endpoint, family, now)
    {
      this.serial, this.endpoint, this.family := serial, endpoint, family;
      phase, started, lastTransition, lastCheck := TestingPrivateAndPublicIPs, now, now, 0;
      useIP, useNAT, lastPublicIPRequestID, lastPrivateIPRequestID := NoIP, false, 0, 0;
      usingLoadBalancer := endpoint.spec.backendConfig.usingLoadBalancer;
      timeout := if endpoint.spec.backendConfig.usingLoadBalancer then TOTAL_TIMEOUT_LOAD_BALANCER else TOTAL_TIMEOUT;
    }

    method TransitionToState(newState: Phase, now: nat)
      modifies this`phase, this`lastTransition
      ensures phase == newState && lastTransition == now
    {
      lastTransition := now;
      phase := newState;
    }

    method UseLegacyNATSettings(now: nat)
      modifies this
      ensures Value() == Legacy(old(Value()), now)
    {
      if usingLoadBalancer {
        useNAT := true;
        useIP := endpoint.spec.GetPublicIP(family);
        TransitionToState(SelectedPublicIP, now);
      } else if endpoint.spec.natEnabled {
        useNAT := true;
        useIP := endpoint.spec.GetPublicIP(family);
        TransitionToState(SelectedPublicIP, now);
      } else {
        useNAT := false;
        useIP := endpoint.spec.GetPrivateIP(family);
        TransitionToState(SelectedPrivateIP, now);
      }
    }

    predicate ShouldCheck(now: nat)
      reads this
      ensures ShouldCheck(now) == Value().ShouldCheck(now)
    {
      match phase
      case TestingPrivateAndPublicIPs => true
      case WaitingForResponse => now - lastCheck > RECHECK_TIME
      case SelectedPublicIP => false
      case SelectedPrivateIP => false
    }

    method MarkCheckSent(now: nat)
      modifies this`phase, this`lastCheck
      ensures Value() == CheckSent(old(Value()), now)
    {
      if phase == TestingPrivateAndPublicIPs {
        phase := WaitingForResponse;
      }
      lastCheck := now;
    }

    method SetRequestID(slot: Slot, number: nat)
      modifies this`lastPublicIPRequestID, this`lastPrivateIPRequestID
      ensures Value() == WithSlot(old(Value()), slot, number)
    {
      match slot
      case PublicSlot => lastPublicIPRequestID := number;
      case PrivateSlot => lastPrivateIPRequestID := number;
    }

    method TransitionToPublicIP(useNAT: bool, now: nat) returns (moved: bool)
      modifies this
      ensures Value() == ToPublic(old(Value()), useNAT, now) && moved == TakesPublic(old(Value()))
    {
      match phase
      case WaitingForResponse =>
        useIP := endpoint.spec.GetPublicIP(family);
        this.useNAT := useNAT;
        TransitionToState(SelectedPublicIP, now);
        return true;
      case SelectedPrivateIP => return false;
      case TestingPrivateAndPublicIPs => return false;
      case SelectedPublicIP => return false;
    }

    method TransitionToPrivateIP(useNAT: bool, now: nat) returns (moved: bool)
      modifies this
      ensures Value() == ToPrivate(old(Value()), useNAT, now) && moved == TakesPrivate(old(Value()), now)
    {
      match phase
      case WaitingForResponse =>
        useIP := endpoint.spec.GetPrivateIP(family);
        this.useNAT := useNAT;
        TransitionToState(SelectedPrivateIP, now);
        return true;
      case SelectedPublicIP =>
        if now - lastTransition > PUBLIC_TO_PRIVATE_FAILOVER_TIMEOUT {
          return false;
        }
        useIP := endpoint.spec.GetPrivateIP(family);
        this.useNAT := useNAT;
        TransitionToState(SelectedPrivateIP, now);
        return true;
      case TestingPrivateAndPublicIPs => return false;
      case SelectedPrivateIP => return false;
    }
  }
}
