# Submariner gateway: verified models

Submariner connects clusters through tunnels between gateway nodes. This project models the parts of it in
which state, order or arithmetic decide whether it works, and proves what they promise:

- **NAT discovery** (`RemoteEndpoint`, `NatMessages`, `NatDiscovery`, `NatDiscoverer`, `NatSelections`,
  `NatAnswers`, `NatProgress`, `NatAnnouncements`, `NatSystem`): the timed state machine a gateway runs for every
  remote endpoint, its numbered requests and their answers, what it gets done and when, and the system of gateways over
  a network that loses, repeats, reorders and rewrites packets.
- **The cable engine and the libreswan driver's list** (`Endpoint`, `CableEngine`, `ReadyChannel`): pending
  installations, replacement of cables by timestamp, and the loop that walks an array while it is shifted in place;
  then both protocols joined by the ready channel.
  `IPFamilies` and `Wrappers` hold the shared types.
- **The packet-filter rule layer** (`PacketFilter`, `IptablesRuleSpec`, `RuleChain`, `Adapter`, `NftablesDriver`):
  a printer and parser, a byte serializer, a driver over a chain, and two reconcilers.
- **Cable metrics** (`CableMetrics`), **RTT statistics** (`PingerStatistics`), **CIDR acceptance** (`Cidr`,
  `DatastoreSyncer`), **the libreswan connection file** (`LineBlocks`, `ConnectionFile`), **gateway transitions**
  (`EventController`) and **global IP ownership** (`Globalnet`, `GlobalIPConservation`, `GlobalIPProgress`,
  `StatusConditions`).

Operations that the source performs by updating fields, maps, slices or a file are methods of classes here. Each is
proved equal to a step on values, and the properties are proved of those steps and of all runs of them. Calls into
the kernel, the network, the API server and the clock are parameters: every step takes the outcome it meets, so a
statement over all runs covers all failures. Every step of NAT discovery reads the clock once.

`dafny verify dfyconfig.toml` checks the whole project.

## Findings

Where the code does not keep a property on all inputs, the project states exactly when it does and gives an input
on which it fails:

- `PrependUnique` lists the chain once and does not refresh the listing while it inserts; the result is the wanted
  one exactly for settled listings (`Adapter.PrependUniqueCorrect`, `Adapter.UnrefreshedListingMisplaces`).
- Metrics of a cluster whose endpoints publish no address carry the same labels for both families, so disconnecting
  one family deletes the other's series (`CableMetrics.AgreementKeptIff`,
  `CableMetrics.UnpublishedDualStackLosesSeries`).
- A cable is taken down before the driver looks at the one that is to replace it. When the driver refuses that one,
  for lack of an address at either end or for its name, or fails to connect it, there is no cable to the cluster any
  more (`CableEngine.SlotStaysTakenIff`, `CableEngine.RefusedSuccessorEmptiesSlot`), and NAT discovery does announce
  endpoints without an address (`ReadyChannel.AddresslessSuccessorEmptiesSlot`).
- A ready message whose address belongs to the other family would leave two cables in a slot
  (`CableEngine.OnePerSlotKeptIff`), but NAT discovery never announces one (`ReadyChannel.AnnouncementsAreSound`).
- A response with the number 0 is taken for the answer to a request that was never sent, because an unused slot holds
  0 too (`NatAnswers.SelectionAnswersRequestIff`, `NatAnswers.UnnumberedResponseSelects`).
- Appending a stanza to a file that does not end in a newline can join it to the last line
  (`ConnectionFile.AppendPutsLastIff`, `ConnectionFile.UnterminatedLineSwallowsStanza`).
- A failed removal of the node's endpoint followed by another local endpoint event loses a gateway transition
  (`EventController.LocalConsistentIff`, `EventController.UndisciplinedRunRepeats`).
- Global IPs are released twice when an egress object's named set cannot be destroyed, and leak when an ingress
  object's service cannot be retrieved on the last try (`GlobalIPConservation.StepConservesIff`,
  `GlobalIPConservation.SecondReleaseTakesFromOther`, `GlobalIPConservation.GivenUpDeletionLeaks`).
- An ingress object whose service is missing gets no address and is not queued again, although the log says that it
  is (`GlobalIPProgress.IngressIsServed`, `GlobalIPProgress.MissingServiceIsNotRetried`).
- An engine that is stopped uses up the ready messages that reach it, so that a cable needs to be asked for again
  (`CableEngine.StoppedUsesUpMessages`).
- A gateway annotation that is kept without being reserved is shared: its address can be given to another object
  when there is no CNI address, and is another object's already when the reservation for another node's gateway is
  refused (`GlobalIPConservation.UnreservedGatewayIPIsGivenAway`, `GlobalIPConservation.RefusedGatewayIPIsShared`).
- Deleting an egress object without IPs and without a pod watcher dereferences the missing watcher and ends the
  process (`GlobalIPConservation.CrashIsReachable`, `Globalnet.GlobalEgressIPController.OnDelete`).

## Model

| member | source | states |
|---|---|---|
| NatSystem.NATIsDetected | pkg/natdiscovery/response_handle.go:31-98 | in every run of honest gateways over any network, a selection announced because of a response has useNAT false exactly when the answered request reached its peer from the IP (or no IP) and port it announced and was aimed at the peer's private IP, which then is the IP selected |
| NatSystem.PublicSelectionHasNAT | pkg/natdiscovery/request_handle.go:82-111 | when specs agree, every announcement of a public IP that is not also the private IP has useNAT true, whatever caused it |
| NatSystem.WithoutNATIsPrivate | pkg/natdiscovery/remote_endpoint.go:122-224 | when specs agree, everything announced without NAT, by a response, by legacy settings or after a timeout, is the private IP of its endpoint |
| NatSystem.SystemRunIsRun | pkg/natdiscovery/natdiscovery.go:134-201 | what the discovering gateway goes through in the system is one of its own runs, so every result about those holds over any network |
| NatSystem.TakenAnswersRequest | pkg/natdiscovery/response_handle.go:50-91 | a response that is taken answers a request this gateway sent to the very address of that slot of that endpoint |
| NatAnswers.MatchAnswersSentIff | pkg/natdiscovery/response_handle.go:50-91 | a response from anyone that matches a slot answers a request sent to that slot's address if and only if its number is not 0 |
| NatAnswers.SelectionAnswersRequestIff | pkg/natdiscovery/response_handle.go:50-97 | in every run, whoever responds, a response-driven selection answers a request sent to that endpoint at the IP selected if and only if the number is not 0 |
| NatAnswers.UnnumberedResponseSelects | pkg/natdiscovery/response_handle.go:60-69 | three events after which the number 0 has made an endpoint announced at a public IP it does not have |
| NatProgress.AskedPeerIsSelected | pkg/natdiscovery/response_handle.go:73-97 | in every run, once a due check in time has asked the private IP, the peer's answer to that request, however late and whatever happened to other endpoints, is announced once when it comes from that IP, with NAT if and only if the request was not received as sent |
| NatProgress.PrivateAnswerDecides | pkg/natdiscovery/response_handle.go:73-97 | the answer to the request at the private IP adds exactly one announcement while the endpoint waits or for a second after its public selection, if and only if it comes from that IP; otherwise nothing changes |
| NatProgress.PublicAnswerDecides | pkg/natdiscovery/response_handle.go:60-70 | the answer to the request at the public IP adds exactly one announcement while the endpoint waits, from any IP, and later changes nothing |
| NatProgress.OtherResponsesChangeNothing | pkg/natdiscovery/response_handle.go:31-97 | malformed responses, other types, unknown endpoints and other numbers change nothing |
| NatProgress.DueCheckAsks | pkg/natdiscovery/request_send.go:30-130 | in every run a check that is due and in time sends exactly one request to each address the endpoint has and that can be written to, with fresh numbers, and says what the slots hold then |
| NatProgress.EarlyCheckDecidesNothing | pkg/natdiscovery/natdiscovery.go:175-201 | within 60 s of the start, or 6 s behind a load balancer, a check announces nothing and leaves discovery open |
| NatProgress.CheckNotDueDoesNothing | pkg/natdiscovery/remote_endpoint.go:151-162 | a check of what is decided, or was asked within two seconds, changes nothing |
| NatProgress.TimedOutIff | pkg/natdiscovery/natdiscovery.go:186-194 | a timeout is announced if and only if a due check comes after those 60 s or 6 s, once, with the outcome of the legacy settings |
| NatProgress.NewEndpointIsTested | pkg/natdiscovery/natdiscovery.go:134-169 | a new endpoint, or one with another spec, is tested from scratch from that moment, or decided at once by legacy settings where a port is missing |
| NatProgress.KnownEndpointIsKept | pkg/natdiscovery/natdiscovery.go:155-164 | an endpoint added again with its spec keeps its discovery and is announced again if it is decided |
| NatProgress.RemovedEndpointIsIgnored | pkg/natdiscovery/natdiscovery.go:171-173 | a removed endpoint is neither checked nor decided by any response |
| NatMessages.HandleRequestFromAddress | pkg/natdiscovery/request_handle.go:31-114 | the whole response, with its malformed and wrong-destination cases |
| NatMessages.ResponseTypeFor | pkg/natdiscovery/request_handle.go:49-111 | OK if and only if the request is meant for this gateway and came untouched; NAT_DETECTED if and only if it is meant for it and did not |
| NatMessages.RequestIsJudged | pkg/natdiscovery/request_handle.go:49-111 | which of the five types an answer has, in terms of the parts of the request, and in whose name it is given |
| NatMessages.FlagsTellWhatChanged | pkg/natdiscovery/request_handle.go:82-104 | what each of the three flags says about the packet |
| NatSelections.RunsAnnounceFew | pkg/natdiscovery/response_handle.go:50-97 | in every run an object announces at most two changes of its selection, and a request number above 0 at most one change of one object, however often responses arrive |
| NatDiscovery.RunsKeepInv | pkg/natdiscovery/request_send.go:75-127 | in every run request numbers are distinct across endpoints, slots and rounds, every slot is unused or holds the number of a request that was sent, to its address, and a waiting endpoint's last check is not past its timeout |
| NatDiscovery.SupersededChangesNothing | pkg/natdiscovery/response_handle.go:61-97 | a number that left its slot, by a newer request, a removal or a replacing object, changes nothing any more, whatever response carries it |
| NatDiscovery.SelectionsOnlyImprove | pkg/natdiscovery/remote_endpoint.go:122-224 | over any stretch of any run the rank of an object never rises, a private selection is final, a public one becomes private only within the failover timeout, and useIP fits the state |
| NatDiscovery.BoundedDiscovery | pkg/natdiscovery/natdiscovery.go:175-201 | a check later than start, timeout and recheck time together leaves the endpoint's discovery complete |
| NatDiscoverer.PassEndsDiscovery | pkg/natdiscovery/natdiscovery.go:175-201 | a whole pass at such a time completes the endpoint, whatever order the map is walked in |
| NatAnnouncements.AnnouncedWasAdded | pkg/natdiscovery/remote_endpoint.go:72-84 | in every run each announcement is of an endpoint and family that were added and names one of that endpoint's own addresses of the family |
| NatDiscoverer.Discoverer.AddEndpoint | pkg/natdiscovery/natdiscovery.go:134-169 | the new state: legacy settings announced at once, an equal spec announced again when complete, any other object replaced |
| NatDiscoverer.Discoverer.RemoveEndpoint | pkg/natdiscovery/natdiscovery.go:171-173 | exactly the named object is forgotten |
| NatDiscoverer.Discoverer.CheckEndpointList | pkg/natdiscovery/natdiscovery.go:175-201 | the new state is that of checking every stored endpoint once, in some order |
| NatDiscoverer.Discoverer.SendCheckRequest | pkg/natdiscovery/request_send.go:30-59 | the private and then the public request go out, each when the endpoint has that address |
| NatDiscoverer.Discoverer.SendCheckRequestToTargetIP | pkg/natdiscovery/request_send.go:61-130 | nothing happens without a port or a source address; otherwise a fresh number goes into the slot and the request, a failed write uses up the number and clears the slot, and a sent one starts the wait |
| NatDiscoverer.Discoverer.HandleResponseFromAddress | pkg/natdiscovery/response_handle.go:31-98 | the new state and the ready message for every response, malformed and unexpected ones included |
| RemoteEndpoint.RemoteEndpointNAT.UseLegacyNATSettings | pkg/natdiscovery/remote_endpoint.go:122-145 | the three legacy outcomes |
| RemoteEndpoint.RemoteEndpointNAT.MarkCheckSent | pkg/natdiscovery/remote_endpoint.go:164-170 | testing becomes waiting and the time of the check is kept |
| RemoteEndpoint.RemoteEndpointNAT.ShouldCheck | pkg/natdiscovery/remote_endpoint.go:151-162 | checks are due while testing, and while waiting after the recheck time |
| RemoteEndpoint.RemoteEndpointNAT.TransitionToPublicIP | pkg/natdiscovery/remote_endpoint.go:172-190 | only a waiting endpoint selects its public IP |
| RemoteEndpoint.RemoteEndpointNAT.TransitionToPrivateIP | pkg/natdiscovery/remote_endpoint.go:192-224 | a waiting endpoint, or one with a public selection not older than the failover timeout, selects its private IP |
| Endpoints.GetIPFrom | pkg/apis/submariner.io/v1/endpoint.go:113-125 | the first address of the family, else the IPv4 fallback for IPv4 |
| Endpoints.IPFromBelongs | pkg/apis/submariner.io/v1/endpoint.go:113-125 | an address found belongs to the family asked for, and none is found only when the list has none of it |
| Endpoints.FirstAddressIsFound | pkg/apis/submariner.io/v1/endpoint.go:113-125 | the first address of the family is found, and without one the fallback for IPv4 alone |
| Endpoints.SetIP | pkg/apis/submariner.io/v1/endpoint.go:127-152 | the addresses and the fallback after one has been set |
| Endpoints.SetIPIsFound | pkg/apis/submariner.io/v1/endpoint.go:113-152 | an address that was set is the one found for its family, the other family finds what it found before, and the fallback stays an IPv4 address |
| Endpoints.FamilyCableNameInjective | pkg/apis/submariner.io/v1/endpoint.go:182-184 | family cable names are equal only for one cable name and one family |
| CableEngine.RunsKeepInv | pkg/cableengine/cableengine.go:170-301 | in every reachable state, whatever fails and with messages that carry no address too, there is at most one active connection per cluster and family, every active name maps to its own timestamp, and every pending count is at least 1 |
| CableEngine.InstallationsAreConserved | pkg/cableengine/cableengine.go:157-168 | since the last removal of a cable, pending installations and accepted ready messages together are the installations asked for, and only accepted messages try to connect |
| CableEngine.NoMoreConnectsThanInstalls | pkg/cableengine/cableengine.go:252-270 | in every run no more connects are tried for a name than installations were asked for |
| CableEngine.NoConnectAfterRemoval | pkg/cableengine/cableengine.go:272-301 | between the removal of a cable and its next installation no message connects it |
| CableEngine.StoppedUsesUpMessages | pkg/cableengine/cableengine.go:170-189 | in every run, after a stop and before the next start a message changes no cable and uses up a pending installation |
| CableEngine.RemovedIsGone | pkg/cableengine/cableengine.go:272-301 | after a successful removal no active connection has the name, and the others are as before |
| CableEngine.RemovalFailsIff | pkg/cableengine/cableengine.go:272-301 | a removal fails if and only if an installed cable of another cluster cannot be disconnected; that cable stays, and in any case nothing awaits it any more |
| CableEngine.DisplacedOnlyByNotOlder | pkg/cableengine/cableengine.go:191-233 | a ready message takes down at most one cable, in its own slot and of an endpoint that is not newer |
| CableEngine.CableGivesWayIff | pkg/cableengine/cableengine.go:204-238 | the cable in the slot is disconnected if and only if it is older than the endpoint, or as old but with another name, IP, NAT flag or backend configuration; one with the same connection info is never touched |
| CableEngine.OnePerSlotKeptIff | pkg/cableengine/cableengine.go:191-247 | a step leaves one connection per slot if and only if it does not connect to an address of another family whose slot is taken |
| CableEngine.SlotStaysTakenIff | pkg/cableengine/cableengine.go:191-301 | where there is a cable to a cluster in a family there still is one after any event, if and only if the event is neither a removal that disconnects it nor an awaited message that takes it down and is then refused or not connected |
| CableEngine.RefusedSuccessorEmptiesSlot | pkg/cableengine/cableengine.go:191-247 | runs of five events that connect a cluster and end without a connection |
| CableEngine.SlotAfterReady | pkg/cableengine/cableengine.go:170-249 | when nothing fails, an awaited message that the driver admits leaves in its slot the new connection, a newer cable, or the same cable with the same connection info |
| CableEngine.SlotNeverGetsOlder | pkg/cableengine/cableengine.go:204-227 | no step of a run leaves an older cable in a slot than the one it found |
| CableEngine.Engine.ReleaseSlot | pkg/cableengine/cableengine.go:191-233 | for any message, also one with no address or one of another family: the loop over the array being shifted under it takes down exactly the one connection in the slot, or none when it keeps its place |
| CableEngine.Engine.InstallCableWithNATInfo | pkg/cableengine/cableengine.go:170-250 | the new state of engine and driver and the error, for every message and every failure |
| CableEngine.Engine.InstallCable | pkg/cableengine/cableengine.go:252-270 | one more pending installation, except for the local cluster and endpoint |
| CableEngine.Engine.RemoveCable | pkg/cableengine/cableengine.go:272-301 | the new state, the error, and whether NAT discovery is told to forget the endpoint, also when the disconnection fails |
| CableEngine.Engine.ShouldProceedWithInstallation | pkg/cableengine/cableengine.go:157-168 | uses up one pending installation and drops the entry at zero |
| CableEngine.Driver.RemoveConnectionForEndpoint | pkg/cable/libreswan/libreswan.go:722-735 | the same array, its elements after the first match shifted left, the last one left behind |
| CableEngine.Driver.DisconnectFromEndpoint | pkg/cable/libreswan/libreswan.go:669-705 | nothing changes in the list when the disconnection fails |
| CableEngine.Driver.ConnectToEndpoint | pkg/cable/libreswan/libreswan.go:467-528 | an invalid cable name or an empty address at either end is refused with the list as it was; otherwise the connection is appended, in place or in a larger array |
| CableEngine.CableNameEdges | pkg/cable/libreswan/libreswan.go:86-103 | which names a cable may have: 1 to 200 of the safe characters, none of their neighbours |
| ReadyChannel.AnnouncementsAreSound | pkg/natdiscovery/remote_endpoint.go:77-84 | whatever addresses endpoints publish, the IP of every announcement of every run is empty or of its family |
| ReadyChannel.FedEngineKeepsOneCable | pkg/cableengine/cableengine.go:143-155 | an engine fed only by what NAT discovery announced, in any order, keeps one cable per cluster and family |
| ReadyChannel.ActiveWasAnnounced | pkg/cableengine/cableengine.go:143-155 | every active connection has the endpoint, IP and NAT flag of an announcement |
| ReadyChannel.ConnectionsWithoutNATArePrivate | pkg/cableengine/cableengine.go:143-155 | the whole system over any network: one cable per cluster and family, and when specs agree a connection without NAT goes to the private IP of its endpoint |
| ReadyChannel.AddresslessSuccessorEmptiesSlot | pkg/natdiscovery/remote_endpoint.go:122-145 | a newer endpoint without a public IP is announced by NAT discovery, and the engine fed by it loses its only cable to the cluster |
| IptablesRuleSpec.ToRuleSpec | pkg/packetfilter/iptables/iptables.go:313-366 | the token list of a rule |
| IptablesRuleSpec.FromRuleSpec | pkg/packetfilter/iptables/iptables.go:369-417 | terminates with every index in bounds on any token list, with the rule the grammar gives |
| IptablesRuleSpec.ParseNextTerm | pkg/packetfilter/iptables/iptables.go:419-427 | the term after a flag, or the zero value at the end |
| IptablesRuleSpec.ParseRuleMatch | pkg/packetfilter/iptables/iptables.go:429-455 | what each kind of match takes from the list |
| IptablesRuleSpec.PrintedRuleRereads | pkg/packetfilter/iptables/iptables.go:313-417 | for every rule over arbitrary strings, the exact rule that comes back |
| IptablesRuleSpec.ListedOrderIsUnderstood | pkg/packetfilter/iptables/iptables.go:369-417 | a clamping rule in the order in which the command lists it is parsed too |
| IptablesRuleSpec.PrintsMarkedSnat | pkg/packetfilter/iptables/iptables.go:313-366 | the exact tokens of a marked SNAT rule, as PrintsClampToPmtu, PrintsClampToValue, PrintsAccept, PrintsDnat, PrintsMark and PrintsJump give them for the other kinds |
| IptablesRuleSpec.LastFlagHasNoTerm | pkg/packetfilter/iptables/iptables.go:419-436 | what each flag does at the end of the list, where it has no term |
| IptablesRuleSpec.OddMatchesAreSkipped | pkg/packetfilter/iptables/iptables.go:429-463 | a mark without a mask and a set in another direction match nothing |
| IptablesRuleSpec.RoundTrip | pkg/packetfilter/iptables/iptables.go:313-473 | parsing undoes printing if and only if the rule is well formed |
| IptablesRuleSpec.PrintingIsInjective | pkg/packetfilter/iptables/iptables.go:313-366 | well-formed rules that print alike are equal |
| Adapter.PrependUnique | pkg/packetfilter/adapter.go:26-46 | the chain after the deletions and insertions of every rule in turn, or an error if an insertion is out of range or any call of the driver fails, the first of which ends it |
| Adapter.EnsureRuleAtPosition | pkg/packetfilter/adapter.go:48-86 | a rule once and in place is left alone; otherwise every listed occurrence is deleted and one inserted; the first failing call ends it with an error |
| Adapter.PrependUniqueCorrect | pkg/packetfilter/adapter.go:26-86 | for distinct rules every position is in range, and the chain ends as the rules followed by the rest if and only if the listing was settled |
| Adapter.PrefixInPlaceIsSettled | pkg/packetfilter/adapter.go:26-86 | listings in which the rules in place are exactly a prefix of the rules are settled |
| Adapter.UnrefreshedListingMisplaces | pkg/packetfilter/adapter.go:33-43 | an input on which the result is wrong because the listing is not refreshed |
| Adapter.UpdateChainRules | pkg/packetfilter/adapter.go:88-126 | the final chain when nothing fails, the error of a failed listing or append, the stale rules left by failed deletions, and that no rule both current and wanted is absent at any moment, in whatever order stale rules are deleted |
| Adapter.ReconciledDistinct | pkg/packetfilter/adapter.go:88-126 | without repetitions: the common rules in current order, then the new ones in target order |
| Adapter.ReconcileIdempotent | pkg/packetfilter/adapter.go:88-126 | a second call changes nothing if and only if the target has no repetitions and stale rules occurred once |
| NftablesDriver.SerializeRule | pkg/packetfilter/nftables/rule_conversion.go:178-206 | the text of a rule, written field by field |
| NftablesDriver.DeserializeRule | pkg/packetfilter/nftables/rule_conversion.go:223-260 | the rule, the error or the panic for any text |
| NftablesDriver.NumberRoundTrip | pkg/packetfilter/nftables/rule_conversion.go:174-221 | a 32-bit number is read back from its decimal text |
| NftablesDriver.RoundTrip | pkg/packetfilter/nftables/rule_conversion.go:178-260 | reading undoes writing if and only if no string of the rule contains a space |
| NftablesDriver.DecodedIff | pkg/packetfilter/nftables/rule_conversion.go:208-260 | a text is a rule if and only if it is the version followed by fifteen fields, three of them numbers; then it is the rule of those fields, and otherwise an error or a panic |
| NftablesDriver.ListingStopsIff | pkg/packetfilter/nftables/nftables.go:255-278 | a listing fails or panics if and only if the first comment that is not a rule does |
| NftablesDriver.SerializationIsInjective | pkg/packetfilter/nftables/rule_conversion.go:178-206 | storable rules have equal texts if and only if they are equal |
| NftablesDriver.Driver.GetRuleFromList | pkg/packetfilter/nftables/nftables.go:240-253 | in any chain, finds the first kernel rule whose comment is the text of the rule, if and only if there is one, or the error of listing the chain |
| NftablesDriver.Driver.Delete | pkg/packetfilter/nftables/nftables.go:216-238 | the comments of any chain, for any rule: the first equal one goes; an error, and nothing changed, if and only if the listing or a transaction fails, but not where the rule was deleted meanwhile |
| NftablesDriver.Driver.List | pkg/packetfilter/nftables/nftables.go:255-278 | the rules of any chain in order without those that carry no comment, or the error of the listing, or the error or panic of the first comment that cannot be read |
| NftablesDriver.Driver.InsertRuleAtPosition | pkg/packetfilter/nftables/nftables.go:288-313 | the comments of any chain after an insertion at a 1-based position; appends below 1; an error, and nothing changed, beyond the end or when the transaction fails |
| NftablesDriver.Driver.AppendUnique | pkg/packetfilter/nftables/nftables.go:125-136 | appends exactly the rules whose text is absent, with the errors of listing and transaction |
| NftablesDriver.RunsRefine | pkg/packetfilter/nftables/nftables.go:216-313 | over every run of storable rules the comments of the chain are the texts of the plain sequence of rules after the same deletions and insertions |
| RuleChain.InsertionMeans | pkg/packetfilter/nftables/nftables.go:284-313 | where an insertion puts its rule in a plain chain |
| RuleChain.AppendAndDeleteMean | pkg/packetfilter/nftables/nftables.go:125-238 | a unique append adds only an absent rule, and a deletion takes one equal rule |
| NftablesDriver.ListingRefines | pkg/packetfilter/nftables/nftables.go:255-278 | listing a chain of storable rules gives them back, whatever uncommented rules are in between |
| CableMetrics.Metrics.RecordConnection | pkg/cable/metrics.go:268-296 | the index, the gauges, the time of establishment of a new connection and the latency and traffic series after the call, and that every scrape in between sees the old series, the old with the new one, or the final ones |
| CableMetrics.Metrics.RecordDisconnected | pkg/cable/metrics.go:298-304 | the index, the gauges and the latency, establishment and traffic series after the call, and the gauges at every moment of it |
| CableMetrics.Metrics.RecordShortConnections | pkg/cable/metrics.go:202-220 | the summary counts the recorded cables per driver and status with no stale key, and in between no lasting series is missing |
| CableMetrics.SameIndexSameSummary | pkg/cable/metrics.go:202-220 | the summary depends on the recorded cables alone, not on the order in which maps are walked nor on earlier calls |
| CableMetrics.SummaryCounts | pkg/cable/metrics.go:202-220 | the summary of a driver and a status is the number of its cables, and there is none for zero |
| CableMetrics.ConnectionIsShown | pkg/cable/metrics.go:238-296 | a recorded connection has a series that names driver, status, and of both ends cluster, host and public IP, and is in the index with it |
| CableMetrics.DisconnectedIsForgotten | pkg/cable/metrics.go:298-315 | disconnecting takes the entry and exactly the series with its labels, and nothing when another cable is recorded in its place |
| CableMetrics.DroppedEverywhere | pkg/cable/metrics.go:306-315 | dropped labels are gone from the latency, establishment and traffic gauges, and no others are |
| CableMetrics.Metrics.SetCableStatus | pkg/cable/metrics.go:162-176 | the new entry, the replaced one, and whether more than the name changed |
| CableMetrics.Metrics.DeleteCableStatus | pkg/cable/metrics.go:179-197 | the entry goes exactly when it is that of the same cable with the same labels |
| CableMetrics.AgreementKeptIff | pkg/cable/metrics.go:268-315 | a call ends with the gauge equal to the index if and only if no other recorded cable carries the labels and status it removes |
| CableMetrics.GaugesAlwaysAgree | pkg/cable/metrics.go:268-315 | when labels tell families, the connection series are exactly those of the recorded cables after every run |
| CableMetrics.NoScrapeMissesACable | pkg/cable/metrics.go:268-315 | in no run does a scrape in the middle of a call miss a cable that stays recorded |
| CableMetrics.UnpublishedDualStackLosesSeries | pkg/cable/metrics.go:238-248 | without that assumption a recorded cable has no series left |
| CableMetrics.CableKeyInjective | pkg/cable/metrics.go:157-159 | different cables have different keys |
| PingerStatistics.Statistics.Update | pkg/pinger/statistics.go:38-82 | the fields and the window array after a sample, with the restart of a full window |
| PingerStatistics.RunMeetsContract | pkg/pinger/statistics.go:38-82 | after every run of positive samples the window is the newest samples, sum and mean describe it, minimum and maximum are those of the run, the deviation is 0 after one sample and else the root of the squared deviation per sample, which is off by at most n²(2R+1) when scaled by n |
| PingerStatistics.UpdateKeepsAccuracy | pkg/pinger/statistics.go:38-82 | one update keeps that accuracy, also across the restart |
| PingerStatistics.IncrementNonNegative | pkg/pinger/statistics.go:65-68 | every truncated increment of the recurrence lies between 0 and R² |
| PingerStatistics.TruncDivTruncates | pkg/pinger/statistics.go:48-66 | the division truncates toward zero, for dividends of either sign |
| PingerStatistics.ExtremesBracketWindow | pkg/pinger/statistics.go:54-66 | minimum and maximum bracket the mean and every sample in the window |
| PingerStatistics.NoOverflow | pkg/pinger/statistics.go:38-82 | no int64 overflows when size·R² is below 2⁶³ |
| Cidr.IsOverlapping | pkg/cidr/iputil.go:96-114 | the verdict of the search, malformed entries included |
| Cidr.IsContained | pkg/cidr/iputil.go:73-94 | the verdict of the search, malformed entries included |
| Cidr.NestedOrDisjoint | pkg/cidr/iputil.go:73-114 | prefix blocks that share an address are nested |
| Cidr.OverlapIsIntersection | pkg/cidr/iputil.go:96-114 | the mutual containment test holds if and only if the blocks share an address |
| Cidr.PrefixIsSuperset | pkg/cidr/iputil.go:73-94 | the prefix test holds if and only if one block lies within the other |
| Cidr.OverlappingMeaning | pkg/cidr/iputil.go:96-114 | each verdict if and only if the first decisive entry is of its kind |
| Cidr.ContainedMeaning | pkg/cidr/iputil.go:73-94 | contained if and only if some block is a superset and no malformed entry comes before it |
| Cidr.ContainedErrorIff | pkg/cidr/iputil.go:73-94 | an error if and only if the address, or an entry before any that covers it, is malformed |
| Cidr.HostRoutes | pkg/cidr/iputil.go:73-114 | the longest prefixes, 32 and 128 bits, are single addresses |
| DatastoreSyncer.ShouldSyncRemoteEndpoint | pkg/controllers/datastoresyncer/datastoresyncer.go:197-230 | the decision on a remote endpoint; a deletion always passes |
| DatastoreSyncer.ValidateRemoteEndpointSubnets | pkg/controllers/datastoresyncer/datastoresyncer.go:232-301 | the decision on its subnets, with every error and retry case |
| DatastoreSyncer.AcceptedIff | pkg/controllers/datastoresyncer/datastoresyncer.go:197-301 | in terms of addresses: accepted if and only if no subnet meets a local one and, with subnets and a started syncer, the first cluster recorded with its ID declares a block covering each and none meets an endpoint of a different remote cluster; re-queued if and only if only the cluster is missing |
| DatastoreSyncer.AcceptedAgain | pkg/controllers/datastoresyncer/datastoresyncer.go:272-278 | under unchanged clusters and other endpoints, an accepted endpoint, or another of its cluster with the same subnets or fewer, is accepted and stored again |
| DatastoreSyncer.StoreIsUpToDate | pkg/controllers/datastoresyncer/datastoresyncer.go:197-230 | decisions use the clusters last synced, and each event changes the store under its own name alone |
| DatastoreSyncer.AcceptedEndpointsStayDisjoint | pkg/controllers/datastoresyncer/datastoresyncer.go:197-301 | in every run stored endpoints of different remote clusters, and any of them and the local endpoint, share no address |
| DatastoreSyncer.StoredWereDeclared | pkg/controllers/datastoresyncer/datastoresyncer.go:232-301 | every stored endpoint's subnets lay inside its cluster's declared CIDRs when it was accepted |
| ConnectionFile.ConnectionFile.AppendConnectionStanza | pkg/cable/libreswan/connection_file.go:33-52 | the text of the file afterwards |
| ConnectionFile.ConnectionFile.RemoveConnectionStanza | pkg/cable/libreswan/connection_file.go:54-96 | the text of the file afterwards, or no file |
| ConnectionFile.RemoveDeletesStanza | pkg/cable/libreswan/connection_file.go:54-96 | for any file, exactly the first stanza of the name is gone and every other line is kept |
| ConnectionFile.TrimSpaceTrims | pkg/cable/libreswan/connection_file.go:62-76 | titles are compared without the white space at either end, and with nothing else cut off |
| ConnectionFile.AppendPutsLastIff | pkg/cable/libreswan/connection_file.go:33-52 | the stanza ends last with all others unchanged if and only if it does not run into an unterminated line |
| ConnectionFile.UnterminatedLineSwallowsStanza | pkg/cable/libreswan/connection_file.go:33-52 | files and stanzas, such as x and conn a, after whose append the file holds no stanza at all |
| ConnectionFile.RemoveUndoesAppend | pkg/cable/libreswan/connection_file.go:33-96 | removing a newly appended stanza gives back the stanzas, and the same text if and only if it had no blank lines |
| ConnectionFile.RunLeavesExpected | pkg/cable/libreswan/connection_file.go:33-96 | after every run of well-formed edits there is one stanza per name, in order of their last append, in a terminated file or no file |
| EventController.HandlerController.HandleCreatedEndpoint | pkg/event/controller/endpoint_created.go:27-88 | the new state, the calls of the handler and whether the event is queued again |
| EventController.HandlerController.HandleRemovedEndpoint | pkg/event/controller/endpoint_removed.go:25-84 | the same for a removed endpoint |
| EventController.HandlerController.HandleUpdatedEndpoint | pkg/event/controller/endpoint_updated.go:25-57 | the same for an updated endpoint |
| EventController.EventIsNotified | pkg/event/controller/endpoint_created.go:27-88 | in every run each event that is not ignored is told once, in its own way, followed by the transition it brings about, and is queued again if and only if the handler fails |
| EventController.MemoryIsWhatWasTold | pkg/event/controller/endpoint_created.go:74-88 | after every run the remote endpoints stored, and the latest of each cluster, are exactly those the handler was told of |
| EventController.RoleAfterEvent | pkg/event/controller/endpoint_removed.go:50-68 | this node's own endpoint decides its role, and the remembered role follows when the event succeeds |
| EventController.TransitionsAlternate | pkg/event/controller/endpoint_created.go:53-72 | when failed local events are retried to success first, successful transitions alternate starting with the gateway and both roles agree whenever nothing is awaited |
| EventController.LocalConsistentIff | pkg/event/controller/endpoint_removed.go:50-68 | told and remembered role stay equal over a local event if and only if it does not succeed while the opposite transition is due |
| EventController.UndisciplinedRunRepeats | pkg/event/controller/endpoint_created.go:53-72 | without that discipline two transitions to the gateway follow each other |
| EventController.RecordNeverGetsOlder | pkg/event/controller/endpoint_created.go:74-88 | between removals that clear it the recorded timestamp of a cluster never decreases, over any run |
| EventController.RecordStep | pkg/event/controller/endpoint_removed.go:70-84 | a step clears the record of a cluster if and only if it processes the removal of the recorded endpoint itself, otherwise never makes it older, and tells the handler of a stale removal |
| Globalnet.FlushRulesAndReleaseIPs | pkg/globalnet/controllers/base_controllers.go:172-195 | released, or queued again with nothing released |
| Globalnet.ReserveAllocatedIPs | pkg/globalnet/controllers/base_controllers.go:111-170 | reserved, or cleared from the status, and an error if and only if the cleared status cannot be distributed |
| Globalnet.AllocateGlobalIPs | pkg/globalnet/controllers/cluster_egressip_controller.go:245-296 | allocated and held, or given back and not held |
| Globalnet.ClusterGlobalEgressIPController.Process | pkg/globalnet/controllers/cluster_egressip_controller.go:123-206 | pool, status and retry after a creation or update |
| Globalnet.GlobalEgressIPController.OnCreateOrUpdate | pkg/globalnet/controllers/global_egressip_controller.go:160-267 | pool, status, cached addresses and retry after a creation or update |
| Globalnet.GlobalEgressIPController.OnDelete | pkg/globalnet/controllers/global_egressip_controller.go:284-324 | pool, status, cached addresses and retry after a deletion, and exactly when a missing pod watcher is dereferenced |
| Globalnet.GlobalIngressIPController.OnCreate | pkg/globalnet/controllers/global_ingressip_controller.go:194-310 | pool, status and retry after a creation, on every failing path |
| Globalnet.GlobalIngressIPController.OnDelete | pkg/globalnet/controllers/global_ingressip_controller.go:369-431 | pool and retry after a deletion, on every failing path |
| Globalnet.GatewayController.Process | pkg/globalnet/controllers/gateway_controller.go:110-166 | pool, annotation and retry |
| Globalnet.GatewayController.ReserveAllocatedIP | pkg/globalnet/controllers/gateway_controller.go:168-204 | what is reserved at the start, which annotations are kept, and an error if and only if a cleared one cannot be distributed |
| GlobalIPConservation.GlobalIPsAreConserved | pkg/globalnet/controllers/base_controllers.go:111-195 | over every run from an empty pool without a breaking step, restarts and crashes included, the allocated addresses are the disjoint union of those held |
| GlobalIPConservation.StepConservesIff | pkg/globalnet/controllers/global_egressip_controller.go:284-324 | a step conserves if and only if it is none of the breaking cases |
| GlobalIPProgress.ClusterEgressIsServed | pkg/globalnet/controllers/cluster_egressip_controller.go:123-296 | the object holds exactly the pool's answer when the number changes, also to fewer, and everything succeeds, keeps what it has when the number is right, and is queued again if and only if the number is still wrong |
| GlobalIPProgress.EgressIsServed | pkg/globalnet/controllers/global_egressip_controller.go:160-267 | the same, and an object with addresses is watched or queued again |
| GlobalIPProgress.IngressIsServed | pkg/globalnet/controllers/global_ingressip_controller.go:194-310 | an object without an address holds the pool's answer if and only if everything succeeds, and when it is queued again |
| GlobalIPProgress.MissingServiceIsNotRetried | pkg/globalnet/controllers/global_ingressip_controller.go:228-241 | a creation that leaves no address and is not queued again |
| GlobalIPProgress.GatewayIsServed | pkg/globalnet/controllers/gateway_controller.go:130-166 | this node's gateway holds the pool's answer once everything succeeds, and is queued again if and only if it has none |
| GlobalIPProgress.EgressIsFreed | pkg/globalnet/controllers/global_egressip_controller.go:284-324 | what a deletion gives back, and when it is tried again |
| GlobalIPProgress.IngressIsFreed | pkg/globalnet/controllers/global_ingressip_controller.go:369-431 | the address is free once service or rules are cleaned up, and the deletion is tried again unless given up |
| GlobalIPConservation.SecondReleaseTakesFromOther | pkg/globalnet/controllers/global_egressip_controller.go:303-315 | a deletion queued again after releasing takes an address from the object that got it |
| GlobalIPConservation.GivenUpDeletionLeaks | pkg/globalnet/controllers/global_ingressip_controller.go:380-384 | a deletion given up keeps an address allocated that nobody holds |
| GlobalIPConservation.UnreservedGatewayIPIsGivenAway | pkg/globalnet/controllers/gateway_controller.go:168-176 | an address annotated to a gateway but not reserved for lack of a CNI address ends up with two objects |
| GlobalIPConservation.RefusedGatewayIPIsShared | pkg/globalnet/controllers/gateway_controller.go:190-195 | another node's gateway keeps an address that another object has |
| GlobalIPConservation.CrashIsReachable | pkg/globalnet/controllers/global_egressip_controller.go:284-301 | two legal steps from the start that break nothing and end in the missing watcher |
| GlobalIPConservation.RestartRestores | pkg/globalnet/controllers/base_controllers.go:111-170 | after a restart or a crash every reservation can succeed, in any order of the objects, and then pool and holders are what they were |
| StatusConditions.Conditions.TrimAllocatedStatusCondition | pkg/globalnet/controllers/base_controllers.go:274-291 | the conditions left by the two loops |
| StatusConditions.TrimmedKeepsNewest | pkg/globalnet/controllers/base_controllers.go:274-291 | exactly the newest allocation condition is left, and every other condition in order |
| StatusConditions.TrimmedKeepsTail | pkg/globalnet/controllers/base_controllers.go:274-291 | everything from the newest allocation condition on is untouched |

## Left out

- PingerStatistics.Statistics.Update: the standard deviation is the exact floor of a square root, because the source's float rounding is not modelled.
- NatDiscovery.RunsKeepInv: request numbers are unbounded, so their wrap-around at 2⁶⁴ is not modelled.
- NatMessages.HandleRequestFromAddress: addresses have one canonical text; texts of an address that differ from it are not modelled.
- CableEngine.RunsKeepInv: it is assumed that the IP of a ready message is empty or belongs to its family, which ReadyChannel.AnnouncementsAreSound discharges, and that a cable name determines its cluster.
- CableEngine.Driver.ConnectToEndpoint: only the list of connections; the check of the subnets' text is part of whether everything else succeeds, and the certificate mode's reconciliation, the status fields and the commands given to pluto are not modelled.
- Endpoints.SetIP: the list is a value, so that the source writes into the caller's slice is not modelled.
- CableMetrics.GaugesAlwaysAgree: it assumes that labels tell families; CableMetrics.AgreementKeptIff is the exact condition.
- CableMetrics.Metrics.RecordConnection: a gauge is a set of series with value 1; the separate calls that record traffic and latency are not modelled.
- Cidr.IsContained: parsing of CIDR text and IPv4 blocks written as IPv6 are not modelled; a malformed text is one value.
- DatastoreSyncer.AcceptedEndpointsStayDisjoint: deciding on an endpoint and storing it are one step.
- NftablesDriver.Driver.Delete: a rule that is not found is taken to have been deleted by somebody else since the listing; a chain is its kernel rules with handles and comments, and the text given to nft itself is not modelled.
- NftablesDriver.RunsRefine: it assumes that no string of a rule holds a space; NftablesDriver.RoundTrip is the exact condition under which a text can be read back.
- ConnectionFile.ConnectionFile.AppendConnectionStanza: errors of the file system and file modes are not modelled.
- GlobalIPConservation.GlobalIPsAreConserved: the pool is given by its contract, a status is persisted before its object is processed again, and gateway annotations change only through the controller.
- Globalnet.GlobalEgressIPController.OnDelete: the status it assigns is assumed to be there when the deletion is queued again, although the source returns no object to persist it.
- Globalnet.AllocateGlobalIPs: the packet-filter rules themselves, named sets and pod watchers are only outcomes here.
- ExtractIPFamilies, ExtractSubnets and OverlappingSubnets in pkg/cidr are not modelled.
- The WireGuard, AmneziaWG and VXLAN drivers, route agents, certificates, public IP resolution and the pinger's loop: kernel programming and I/O.
- Protobuf encoding, UDP sockets, informers, work queues and federators: messages are datatypes and events are atomic steps.
- The admiral library is not part of this model.
