/** The messages of NAT discovery and how a gateway answers a request
    (pkg/natdiscovery/proto, pkg/natdiscovery/request_handle.go). */
module NatMessages {
  import opened Endpoints
  import opened IPFamilies
  import opened Wrappers

  datatype Party = Party(endpointID: string, clusterID: string)

  datatype Address = Address(ip: IP, port: nat)

  /** Parts of a message that a malformed one can lack are optional. */
  datatype Request = Request(number: nat, sender: Option<Party>, receiver: Option<Party>,
                             usingSrc: Option<Address>, usingDst: Option<Address>)

  datatype ResponseType = OK | NAT_DETECTED | UNKNOWN_DST_CLUSTER | UNKNOWN_DST_ENDPOINT | MALFORMED

  datatype Response = Response(number: nat, response: ResponseType, sender: Option<Party>, receiver: Option<Party>,
                               receivedSrc: Option<Address>,
                               srcIPNATDetected: bool, srcPortNATDetected: bool, dstIPNATDetected: bool)

  /** The family a packet arrived on. */
  function FamilyOf(from: Address): Family {
    if from.ip.V4? then IPv4 else IPv6
  }

  predicate WellFormed(req: Request) {
    req.sender.Some? && req.receiver.Some? && req.usingSrc.Some? && req.usingDst.Some?
  }

  /** The request was meant for this gateway. */
  predicate MeantFor(req: Request, local: EndpointSpec, family: Family) {
    WellFormed(req) && req.receiver == Some(Party(local.GetFamilyCableName(family), local.clusterID))
  }

  /** The packet came the way it was sent: from the address its sender used, if it named one, and to the
      private address of this gateway. */
  predicate Untouched(req: Request, local: EndpointSpec, from: Address)
    requires WellFormed(req)
  {
    && (req.usingSrc.value.ip == NoIP || req.usingSrc.value.ip == from.ip)
    && req.usingSrc.value.port == from.port
    && req.usingDst.value.ip == local.GetPrivateIP(FamilyOf(from))
  }

  /** The answer to a request, filled in step by step as the checks go on. */
  method HandleRequestFromAddress(local: EndpointSpec, req: Request, from: Address) returns (response: Response)
    ensures response.number == req.number && response.receiver == req.sender && response.receivedSrc == Some(from)
    ensures response.sender == Some(Party(local.GetFamilyCableName(FamilyOf(from)), local.clusterID))
    ensures response.response == ResponseTypeFor(local, req, from)
    ensures response == ResponseTo(local, req, from)
  {
    var family := IPv4;
    if !from.ip.V4? {
      family := IPv6;
    }
    response := Response(req.number, OK, Some(Party(local.GetFamilyCableName(family), local.clusterID)), req.sender,
                         Some(from), false, false, false);
    if req.receiver.None? || req.sender.None? || req.usingDst.None? || req.usingSrc.None? {
      response := response.(response := MALFORMED);
      return;
    }
    if req.receiver.value.clusterID != local.clusterID {
      response := response.(response := UNKNOWN_DST_CLUSTER);
      return;
    }
    if req.receiver.value.endpointID != local.GetFamilyCableName(family) {
      response := response.(response := UNKNOWN_DST_ENDPOINT);
      return;
    }
    if req.usingSrc.value.ip != NoIP && req.usingSrc.value.ip != from.ip {
      response := response.(srcIPNATDetected := true);
    }
    if req.usingSrc.value.port != from.port {
      response := response.(srcPortNATDetected := true);
    }
    if req.usingDst.value.ip != local.GetPrivateIP(family) {
      response := response.(dstIPNATDetected := true);
    }
    if response.srcPortNATDetected || response.srcIPNATDetected || response.dstIPNATDetected {
      response := response.(response := NAT_DETECTED);
    } else {
      response := response.(response := OK);
    }
  }

  /** OK exactly when the request is for this gateway and came untouched. */
  function ResponseTypeFor(local: EndpointSpec, req: Request, from: Address): (t: ResponseType)
    ensures t == OK <==> MeantFor(req, local, FamilyOf(from)) && Untouched(req, local, from)
    ensures t == NAT_DETECTED <==> MeantFor(req, local, FamilyOf(from)) && !Untouched(req, local, from)
  {
    if !WellFormed(req) then MALFORMED
    else if req.receiver.value.clusterID != local.clusterID then UNKNOWN_DST_CLUSTER
    else if req.receiver.value.endpointID != local.GetFamilyCableName(FamilyOf(from)) then UNKNOWN_DST_ENDPOINT
    else if Untouched(req, local, from) then OK
    else NAT_DETECTED
  }

  function ResponseTo(local: EndpointSpec, req: Request, from: Address): Response {
    var meant := MeantFor(req, local, FamilyOf(from));
    Response(req.number, ResponseTypeFor(local, req, from),
             Some(Party(local.GetFamilyCableName(FamilyOf(from)), local.clusterID)), req.sender, Some(from),
             meant && req.usingSrc.value.ip != NoIP && req.usingSrc.value.ip != from.ip,
             meant && req.usingSrc.value.port != from.port,
             meant && req.usingDst.value.ip != local.GetPrivateIP(FamilyOf(from)))
  }

  /** How each request is judged: the first thing that is wrong with it decides, and NAT is seen exactly when
      one of the three flags is set. */
  lemma RequestIsJudged(local: EndpointSpec, req: Request, from: Address)
    ensures var resp := ResponseTo(local, req, from);
      var complete := req.sender.Some? && req.receiver.Some? && req.usingSrc.Some? && req.usingDst.Some?;
      var name := local.cableName + if from.ip.V4? then "-v4" else "-v6";
      && (resp.response == MALFORMED <==> !complete)
      && (resp.response == UNKNOWN_DST_CLUSTER <==> complete && req.receiver.value.clusterID != local.clusterID)
      && (resp.response == UNKNOWN_DST_ENDPOINT <==>
            complete && req.receiver.value.clusterID == local.clusterID && req.receiver.value.endpointID != name)
      && (resp.response == NAT_DETECTED <==>
            resp.srcIPNATDetected || resp.srcPortNATDetected || resp.dstIPNATDetected)
      && resp.sender == Some(Party(name, local.clusterID)) && resp.receiver == req.sender
      && resp.number == req.number && resp.receivedSrc == Some(from)
  {
    FamilyCableNames(local);
  }

  /** What the three flags say of a request that is meant for this gateway. */
  lemma FlagsTellWhatChanged(local: EndpointSpec, req: Request, from: Address)
    requires var t := ResponseTo(local, req, from).response; t == OK || t == NAT_DETECTED
    ensures var resp := ResponseTo(local, req, from);
      && (resp.srcIPNATDetected <==> req.usingSrc.value.ip != NoIP && req.usingSrc.value.ip != from.ip)
      && (resp.srcPortNATDetected <==> req.usingSrc.value.port != from.port)
      && (resp.dstIPNATDetected <==>
            req.usingDst.value.ip != local.GetPrivateIP(if from.ip.V4? then IPv4 else IPv6))
  {
  }
}
