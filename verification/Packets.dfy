/** Well-formed IPv4 packets (section 3.1 of RFC 791) and IPv6 packets (section 3 of RFC 8200). */
module Packets {
  import opened Bytes
  import opened Control

  /** Version 4, a header of at least twenty bytes inside the packet, total length equal to the size. */
  predicate ShapedV4(p: bytes) {
    && |p| >= 20 && p[0] / 16 == 4
    && 20 <= p[0] % 16 * 4 <= |p|
    && ReadU16(p, 2) == |p|
  }

  /** Version 6, a forty-byte header, payload length equal to the remaining size. */
  predicate ShapedV6(p: bytes) {
    |p| >= 40 && p[0] / 16 == 6 && ReadU16(p, 4) + 40 == |p|
  }

  function SourceV4(p: bytes): Ipv4
    requires |p| >= 20
  {
    p[12..16]
  }

  function DestinationV4(p: bytes): Ipv4
    requires |p| >= 20
  {
    p[16..20]
  }

  function SourceV6(p: bytes): Ipv6
    requires |p| >= 40
  {
    p[8..24]
  }

  function DestinationV6(p: bytes): Ipv6
    requires |p| >= 40
  {
    p[24..40]
  }
}
