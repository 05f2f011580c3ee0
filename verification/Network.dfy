/**
 Two endpoints joined by a network that may drop, repeat and reorder segments: whatever one side has ever put on
 the wire may arrive at the other at any time, any number of times, or never.
 */
module Network {
  import opened Wrapping
  import opened Segments
  import opened Connections

  /** A connection, the bytes its application wrote and read, and every segment it has put on the wire. */
  datatype Endpoint = Endpoint(conn: Connection, accepted: seq<Byte>, delivered: seq<Byte>, wire: set<Segment>)

  datatype Net = Net(a: Endpoint, b: Endpoint)

  datatype Action =
    | Connecting
    | Writing(data: seq<Byte>)
    | Ending
    | Reading(len: nat)
    | Ticking(ms: nat)
    | Transmitting
    | Receiving(seg: Segment)

  datatype Event = AtA(act: Action) | AtB(act: Action)

  function Act(e: Endpoint, peerWire: set<Segment>, act: Action): Endpoint {
    var c := e.conn;
    match act
    case Connecting => e.(conn := Connect(c))
    case Writing(data) => e.(conn := Write(c, data), accepted := e.accepted + data[..c.Outbound().Accepted(data)])
    case Ending => e.(conn := EndInputStream(c))
    case Reading(len) => e.(conn := ReadInbound(c, len), delivered := e.delivered + c.Inbound().Peek(len))
    case Ticking(ms) => e.(conn := Tick(c, ms))
    case Transmitting =>
      if c.segmentsOut == [] then e
      else e.(conn := c.(segmentsOut := c.segmentsOut[1..]), wire := e.wire + {c.segmentsOut[0]})
    case Receiving(seg) => if seg in peerWire then e.(conn := SegmentReceived(c, seg)) else e
  }

  function Step(n: Net, ev: Event): Net {
    match ev
    case AtA(act) => n.(a := Act(n.a, n.b.wire, act))
    case AtB(act) => n.(b := Act(n.b, n.a.wire, act))
  }

  function Opened(cfg: Config): Endpoint { Endpoint(NewConnection(cfg), [], [], {}) }

  function Run(cfgA: Config, cfgB: Config, events: seq<Event>): Net {
    if events == [] then Net(Opened(cfgA), Opened(cfgB))
    else Step(Run(cfgA, cfgB, events[..|events|-1]), events[|events|-1])
  }
}
