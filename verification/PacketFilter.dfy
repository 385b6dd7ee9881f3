/** The rule record and constants of pkg/packetfilter/packetfilter.go. */
module PacketFilter {

  type uint32 = x: int | 0 <= x < 0x1_0000_0000

  const ACTION_JUMP: uint32 := 0
  const ACTION_ACCEPT: uint32 := 1
  const ACTION_MSS: uint32 := 2
  const ACTION_MARK: uint32 := 3
  const ACTION_SNAT: uint32 := 4
  const ACTION_DNAT: uint32 := 5

  const PROTO_UNDEFINED: uint32 := 0
  const PROTO_ALL: uint32 := 1
  const PROTO_TCP: uint32 := 2
  const PROTO_UDP: uint32 := 3
  const PROTO_ICMP: uint32 := 4

  const CLAMP_UNDEFINED: uint32 := 0
  const CLAMP_TO_PMTU: uint32 := 1
  const CLAMP_TO_VALUE: uint32 := 2

  datatype Rule = Rule(
    destCIDR: string, srcCIDR: string, srcSetName: string, destSetName: string,
    snatCIDR: string, dnatCIDR: string, outInterface: string, inInterface: string,
    targetChain: string, mssValue: string, dPort: string, markValue: string,
    action: uint32, proto: uint32, clampType: uint32)

  const EMPTY_RULE: Rule := Rule("", "", "", "", "", "", "", "", "", "", "", "", 0, 0, 0)
}
