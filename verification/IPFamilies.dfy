/** The families of IP addresses, as k8s.io/utils/net names them. */
module IPFamilies {

  datatype Family = IPv4 | IPv6 | IPFamilyUnknown

  function Text(family: Family): string {
    match family
    case IPv4 => "4"
    case IPv6 => "6"
    case IPFamilyUnknown => ""
  }
}
