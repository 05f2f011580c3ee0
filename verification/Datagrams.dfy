/** IPv4 datagrams (section 3.1 of RFC 791). */
module Datagrams {
  import opened Wrapping

  datatype IPv4Header = IPv4Header(ver: nat, hlen: nat, tos: Byte, len: u16, id: u16, df: bool, mf: bool, offset: u16,
                                   ttl: Byte, proto: Byte, cksum: u16, src: u32, dst: u32)

  datatype Datagram = Datagram(header: IPv4Header, payload: seq<Byte>)
}
