/** TCP segments (section 3.1 of RFC 793). */
module Segments {
  import opened Wrapping

  datatype Header = Header(sport: u16, dport: u16, seqno: u32, ackno: u32, doff: nat,
                           urg: bool, ack: bool, psh: bool, rst: bool, syn: bool, fin: bool,
                           win: u16, cksum: u16, uptr: u16)

  datatype Segment = Segment(header: Header, payload: seq<Byte>)
  {
    /** The sequence numbers it occupies: one for each byte, one for SYN and one for FIN. */
    function Length(): nat {
      |payload| + (if header.syn then 1 else 0) + (if header.fin then 1 else 0)
    }
  }

  const BLANK: Header := Header(0, 0, 0, 0, 5, false, false, false, false, false, false, 0, 0, 0)
}
