/** Endpoints as the cable engine and NAT discovery see them
    (pkg/apis/submariner.io/v1/endpoint.go, pkg/natdiscovery/remote_endpoint.go:72-77). */
module Endpoints {
  import opened IPFamilies

  /** The text of an address, in its one canonical form; NoIP is the empty text. */
  datatype IP = NoIP | V4(address: nat) | V6(address: nat) {
    function Family(): Family {
      match this
      case NoIP => IPFamilyUnknown
      case V4(_) => IPv4
      case V6(_) => IPv6
    }
  }

  /** The configuration of the backend: what NAT discovery reads from it, and everything else. The port
      is 0 when it is missing or cannot be parsed. */
  datatype BackendConfig = BackendConfig(natDiscoveryPort: nat, usingLoadBalancer: bool, rest: map<string, string>)

  datatype EndpointSpec = EndpointSpec(clusterID: string, cableName: string, hostname: string, subnets: seq<string>,
                                       privateIPs: seq<IP>, privateIP: IP, publicIPs: seq<IP>, publicIP: IP,
                                       natEnabled: bool, backendConfig: BackendConfig) {
    function GetFamilyCableName(family: Family): string {
      cableName + "-v" + Text(family)
    }

    function GetPrivateIP(family: Family): IP {
      IPFrom(family, privateIPs, privateIP)
    }

    function GetPublicIP(family: Family): IP {
      IPFrom(family, publicIPs, publicIP)
    }
  }

  datatype Endpoint = Endpoint(spec: EndpointSpec, creationTimestamp: nat)

  /** What NAT discovery tells the cable engine about a remote endpoint. */
  datatype NATEndpointInfo = NATEndpointInfo(endpoint: Endpoint, useNAT: bool, useIP: IP, useFamily: Family)

  /** The first address of the family; for IPv4 the older single field otherwise. */
  function IPFrom(family: Family, ips: seq<IP>, ipv4Fallback: IP): IP {
    if ips == [] then (if family == IPv4 then ipv4Fallback else NoIP)
    else if ips[0].Family() == family then ips[0]
    else IPFrom(family, ips[1..], ipv4Fallback)
  }

  method GetIPFrom(family: Family, ips: seq<IP>, ipv4Fallback: IP) returns (ip: IP)
    ensures ip == IPFrom(family, ips, ipv4Fallback)
  {
    for i := 0 to |ips|
      invariant IPFrom(family, ips, ipv4Fallback) == IPFrom(family, ips[i..], ipv4Fallback)
    {
      if ips[i].Family() == family {
        return ips[i];
      }
    }
    return if family == IPv4 then ipv4Fallback else NoIP;
  }

  /** An address found for a family belongs to it, unless the endpoint has none for the family. */
  lemma {:induction false} IPFromBelongs(family: Family, ips: seq<IP>, ipv4Fallback: IP)
    requires ipv4Fallback == NoIP || ipv4Fallback.Family() == IPv4
    ensures var ip := IPFrom(family, ips, ipv4Fallback);
      ip == NoIP || ip.Family() == family
    ensures IPFrom(family, ips, ipv4Fallback) == NoIP && family != IPFamilyUnknown ==>
      forall ip :: ip in ips ==> ip.Family() != family
  {
    if ips != [] {
      IPFromBelongs(family, ips[1..], ipv4Fallback);
    }
  }

  /** The first address of the family is found, and without one the fallback, which is for IPv4 alone. */
  lemma {:induction false} FirstAddressIsFound(family: Family, ips: seq<IP>, ipv4Fallback: IP, i: nat)
    requires i <= |ips| && (i < |ips| ==> ips[i].Family() == family)
    requires forall j :: 0 <= j < i ==> ips[j].Family() != family
    ensures IPFrom(family, ips, ipv4Fallback) ==
      if i < |ips| then ips[i] else if family == IPv4 then ipv4Fallback else NoIP
  {
    if i > 0 {
      assert forall j :: 0 <= j < i - 1 ==> ips[1..][j] == ips[j + 1];
      FirstAddressIsFound(family, ips[1..], ipv4Fallback, i - 1);
    }
  }

  /** An endpoint that publishes an address of either family is reached at both. */
  lemma BothFamiliesAreFound(spec: EndpointSpec, v4: nat, v6: nat)
    requires spec.publicIPs == [V4(v4)] + [V6(v6)] && spec.privateIPs == [V6(v6)] + [V4(v4)]
    ensures spec.GetPublicIP(IPv4) == spec.GetPrivateIP(IPv4) == V4(v4)
    ensures spec.GetPublicIP(IPv6) == spec.GetPrivateIP(IPv6) == V6(v6)
  {
    FirstAddressIsFound(IPv4, spec.publicIPs, spec.publicIP, 0);
    FirstAddressIsFound(IPv6, spec.publicIPs, spec.publicIP, 1);
    FirstAddressIsFound(IPv4, spec.privateIPs, spec.privateIP, 1);
    FirstAddressIsFound(IPv6, spec.privateIPs, spec.privateIP, 0);
  }

  /** The position of the first address of the family, or the length of the list. */
  function FirstOfFamily(ips: seq<IP>, family: Family): (i: nat)
    ensures i <= |ips|
  {
    if ips == [] || ips[0].Family() == family then 0 else 1 + FirstOfFamily(ips[1..], family)
  }

  /** The addresses and the fallback after an address has been set; none is ignored. */
  function WithIP(ips: seq<IP>, ipv4Fallback: IP, newIP: IP): (seq<IP>, IP) {
    var i := FirstOfFamily(ips, newIP.Family());
    if newIP == NoIP then (ips, ipv4Fallback)
    else (if i < |ips| then ips[i := newIP] else ips + [newIP], if newIP.V4? then newIP else ipv4Fallback)
  }

  method SetIP(ips: seq<IP>, ipv4Fallback: IP, newIP: IP) returns (updated: seq<IP>, fallback: IP)
    ensures (updated, fallback) == WithIP(ips, ipv4Fallback, newIP)
  {
    updated, fallback := ips, ipv4Fallback;
    if newIP == NoIP {
      return;
    }
    var family := newIP.Family();
    if family == IPv4 {
      fallback := newIP;
    }
    for i := 0 to |updated|
      invariant updated == ips && FirstOfFamily(ips, family) == i + FirstOfFamily(ips[i..], family)
    {
      if updated[i].Family() == family {
        updated := updated[i := newIP];
        return;
      }
      assert ips[i..][1..] == ips[i + 1..];
    }
    updated := updated + [newIP];
  }

  lemma {:induction false} FallbackIsForIPv4(family: Family, ips: seq<IP>, a: IP, b: IP)
    requires family != IPv4
    ensures IPFrom(family, ips, a) == IPFrom(family, ips, b)
  {
    if ips != [] {
      FallbackIsForIPv4(family, ips[1..], a, b);
    }
  }

  /** An address that was set is the one found for its family, and the addresses of the other family are
      as before; an IPv4 address is the new fallback, so the fallback stays one. */
  lemma {:induction false} SetIPIsFound(ips: seq<IP>, ipv4Fallback: IP, newIP: IP, other: Family)
    requires newIP != NoIP && other != newIP.Family()
    ensures var (ips', fallback) := WithIP(ips, ipv4Fallback, newIP);
      && IPFrom(newIP.Family(), ips', fallback) == newIP
      && IPFrom(other, ips', fallback) == IPFrom(other, ips, ipv4Fallback)
      && fallback == (if newIP.V4? then newIP else ipv4Fallback)
  {
    if ips != [] && ips[0].Family() != newIP.Family() {
      SetIPIsFound(ips[1..], ipv4Fallback, newIP, other);
      var i := FirstOfFamily(ips, newIP.Family());
      var (ips', fallback) := WithIP(ips, ipv4Fallback, newIP);
      var (tail, fallback') := WithIP(ips[1..], ipv4Fallback, newIP);
      assert ips'[1..] == tail && ips'[0] == ips[0] && fallback == fallback';
    } else if ips != [] {
      assert ips[0 := newIP][1..] == ips[1..];
      if other != IPv4 { FallbackIsForIPv4(other, ips[1..], ipv4Fallback, newIP); }
    }
  }

  /** The name of a cable in each family. */
  lemma FamilyCableNames(spec: EndpointSpec)
    ensures spec.GetFamilyCableName(IPv4) == spec.cableName + "-v4"
    ensures spec.GetFamilyCableName(IPv6) == spec.cableName + "-v6"
  {
    assert "-v" + "4" == "-v4" && "-v" + "6" == "-v6";
  }

  /** Cables of one endpoint for two families, or of two endpoints, have different names. */
  lemma FamilyCableNameInjective(a: EndpointSpec, f: Family, b: EndpointSpec, g: Family)
    requires a.GetFamilyCableName(f) == b.GetFamilyCableName(g)
    ensures a.cableName == b.cableName && f == g
  {
    var n := a.GetFamilyCableName(f);
    var last := n[|n| - 1];
    assert f == IPv4 <==> last == '4';
    assert f == IPv6 <==> last == '6';
    assert g == IPv4 <==> last == '4';
    assert g == IPv6 <==> last == '6';
    assert n[..|a.cableName|] == a.cableName && n[..|b.cableName|] == b.cableName;
  }
}
