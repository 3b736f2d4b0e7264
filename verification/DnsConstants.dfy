/** Numbers of the DNS protocol that the components share. */
module DnsConstants {
  const TYPE_NONE := 0
  const TYPE_A := 1
  const TYPE_NS := 2
  const TYPE_SOA := 6
  const TYPE_SIG := 24
  const TYPE_AAAA := 28
  const TYPE_OPT := 41
  const TYPE_DS := 43
  const TYPE_RRSIG := 46
  const TYPE_NSEC := 47
  const TYPE_DNSKEY := 48
  const TYPE_NSEC3 := 50

  const CLASS_INET := 1

  const RCODE_SUCCESS := 0
  const RCODE_SERVER_FAILURE := 2
  const RCODE_NAME_ERROR := 3
}
