/** TCP segments inside IPv4 datagrams, on a connection whose addresses and ports are known. */
module TcpOverIp {
  import opened Wrappers
  import opened Wrapping
  import opened Segments
  import opened Datagrams
  import opened Parsing
  import SegmentFormat
  import DatagramFormat

  const PROTO_TCP: Byte := 6

  /** One end of a connection: its own address and port, and its peer's. */
  datatype Link = Link(source: u32, sourcePort: u16, destination: u32, destinationPort: u16)

  function Peer(l: Link): Link { Link(l.destination, l.destinationPort, l.source, l.sourcePort) }

  function Addressed(l: Link, seg: Segment): Segment {
    seg.(header := seg.header.(sport := l.sourcePort, dport := l.destinationPort))
  }

  /** The datagram's header; its length is assigned in 16 bits. */
  function HeaderFor(l: Link, seg: Segment): IPv4Header {
    var h := DatagramFormat.DEFAULT.(src := l.source, dst := l.destination);
    h.(len := (4 * h.hlen + 4 * seg.header.doff + |seg.payload|) % U16)
  }

  function WrapInIp(l: Link, seg: Segment): Datagram
    requires seg.header.doff >= 5
  {
    var h := HeaderFor(l, seg);
    Datagram(h, SegmentFormat.Serialize(Addressed(l, seg), DatagramFormat.PseudoChecksum(h)))
  }

  function UnwrapFromIp(l: Link, d: Datagram): Option<Segment> {
    if d.header.dst != l.source || d.header.src != l.destination || d.header.proto != PROTO_TCP then None else
    var r := SegmentFormat.Parse(d.payload, DatagramFormat.PseudoChecksum(d.header));
    if r.0 != NoError || r.1.header.dport != l.sourcePort || r.1.header.sport != l.destinationPort then None
    else Some(r.1)
  }

  ghost predicate Fits(seg: Segment)
  {
    5 <= seg.header.doff <= 15 && 20 + 4 * seg.header.doff + |seg.payload| < U16
  }

  lemma WrappedWellFormed(l: Link, seg: Segment)
    requires Fits(seg)
    ensures DatagramFormat.WellFormed(WrapInIp(l, seg))
  {
    var seg' := Addressed(l, seg);
    var c := SegmentFormat.SegmentChecksum(seg', DatagramFormat.PseudoChecksum(HeaderFor(l, seg)));
    var rest := SegmentFormat.SerializeBytes(seg', c);
  }

  /** Through both layers: what one end wraps and serializes, the other parses and unwraps to the same segment. */
  lemma ThroughIp(l: Link, seg: Segment) returns (d: Datagram, c: u16)
    requires Fits(seg)
    ensures DatagramFormat.WellFormed(WrapInIp(l, seg))
    ensures DatagramFormat.Parse(DatagramFormat.Serialize(WrapInIp(l, seg))) == (NoError, d)
    ensures UnwrapFromIp(Peer(l), d) == Some(Addressed(l, seg).(header := Addressed(l, seg).header.(cksum := c)))
  {
    var w := WrapInIp(l, seg);
    WrappedWellFormed(l, seg);
    DatagramFormat.RoundTrip(w);
    d := w.(header := w.header.(cksum := DatagramFormat.HeaderChecksum(w.header)));
    var pseudo := DatagramFormat.PseudoChecksum(w.header);
    assert DatagramFormat.PseudoChecksum(d.header) == pseudo;
    c := SegmentFormat.SegmentChecksum(Addressed(l, seg), pseudo);
    SegmentFormat.RoundTrip(Addressed(l, seg), pseudo);
  }
}
