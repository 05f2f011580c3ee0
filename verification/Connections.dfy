/**
 A TCP endpoint: a receiver, a sender, and the decision when the connection is over (section 3.5 of RFC 793).
 */
module Connections {
  import opened Wrapping
  import opened ByteStreams
  import opened Segments
  import opened Reassembly
  import opened Receiving
  import opened Sending

  const MAX_RETX_ATTEMPTS: nat := 8

  datatype Config = Config(rtTimeout: u16, recvCapacity: nat, sendCapacity: nat, isn: u32)

  datatype Connection = Connection(cfg: Config, receiver: Receiver, sender: Sender, segmentsOut: seq<Segment>,
                                   sinceLastSegment: nat, linger: bool, active: bool)
  {
    function Inbound(): Stream { receiver.reassembler.output }

    function Outbound(): Stream { sender.stream }
  }

  function NewConnection(cfg: Config): Connection {
    Connection(cfg, NewReceiver(cfg.recvCapacity), NewSender(cfg.sendCapacity, cfg.rtTimeout, cfg.isn),
               [], 0, true, true)
  }

  /** Fills in what the receiver has to say: the window, clamped to 16 bits, and the acknowledgement. */
  function Stamp(seg: Segment, rc: Receiver): Segment {
    var win := if 0 <= WindowSize(rc) < U16 then WindowSize(rc) else U16 - 1;
    var h := seg.header.(win := win);
    seg.(header := match Ackno(rc) case None => h case Some(a) => h.(ack := true, ackno := a))
  }

  function StampAll(segs: seq<Segment>, rc: Receiver): seq<Segment> {
    if segs == [] then [] else [Stamp(segs[0], rc)] + StampAll(segs[1..], rc)
  }

  function ClearSendbuf(c: Connection): Connection {
    c.(segmentsOut := c.segmentsOut + StampAll(c.sender.segmentsOut, c.receiver),
       sender := c.sender.(segmentsOut := []))
  }

  function SetError(c: Connection): Connection {
    var r := c.receiver.reassembler;
    c.(sender := c.sender.(stream := c.sender.stream.(error := true)),
       receiver := c.receiver.(reassembler := r.(output := r.output.(error := true))))
  }

  function Shutdown(c: Connection, clean: bool): Connection {
    (if clean then c else SetError(c)).(active := false)
  }

  // ---------- Calls from the application ----------

  function Connect(c: Connection): Connection {
    ClearSendbuf(c.(sender := FillWindow(c.sender)))
  }

  function Write(c: Connection, data: seq<Byte>): Connection {
    Connect(c.(sender := c.sender.(stream := c.sender.stream.Write(data))))
  }

  function EndInputStream(c: Connection): Connection {
    Connect(c.(sender := c.sender.(stream := c.sender.stream.EndInput())))
  }

  function ReadInbound(c: Connection, len: nat): Connection {
    c.(receiver := c.receiver.(reassembler := ReadOut(c.receiver.reassembler, len)))
  }

  // ---------- Segments from the peer ----------

  /** A segment that occupies sequence numbers is answered by at least one segment. */
  function Answer(s: Sender, seg: Segment): Sender {
    if seg.Length() > 0 && s.segmentsOut == [] then
      var s1 := FillWindow(s);
      if s1.segmentsOut == [] then SendEmpty(s1, false, false, false) else s1
    else s
  }

  predicate IsKeepAlive(rc: Receiver, seg: Segment) {
    var a := Ackno(rc);
    a.Some? && seg.Length() == 0 && seg.header.seqno == (a.value - 1) % U32
  }

  function ReactTo(s: Sender, rc: Receiver, seg: Segment): Sender {
    var s1 := if seg.header.ack then AckReceived(s, seg.header.ackno, seg.header.win) else s;
    var s2 := Answer(s1, seg);
    if IsKeepAlive(rc, seg) then SendEmpty(s2, false, false, false) else s2
  }

  function SegmentReceived(c: Connection, seg: Segment): Connection {
    var c0 := c.(sinceLastSegment := 0);
    if seg.header.rst then Shutdown(c0, false)
    else
      var rc := Receive(c.receiver, seg);
      var c1 := ClearSendbuf(c0.(receiver := rc, sender := ReactTo(c.sender, rc, seg)));
      if c1.Inbound().ended && !c1.Outbound().ended then c1.(linger := false) else c1
  }

  // ---------- Time ----------

  predicate ShouldShutdown(c: Connection) {
    && c.Inbound().ended && Unassembled(c.receiver.reassembler.waiting) == 0
    && c.Outbound().ended && InFlight(c.sender.outstanding) == 0
    && c.sender.nextSeqno == c.Outbound().written + 2
  }

  function SendReset(c: Connection): Connection {
    ClearSendbuf(c.(sender := SendEmpty(c.sender, false, false, true)))
  }

  /** Too many retries: a reset goes out and the connection is in error. */
  function GiveUp(c: Connection): Connection { Shutdown(SendReset(c), false) }

  predicate IsOver(c: Connection) {
    ShouldShutdown(c) && (c.linger ==> c.sinceLastSegment >= 10 * c.cfg.rtTimeout)
  }

  function CloseIfOver(c: Connection): Connection { if IsOver(c) then Shutdown(c, true) else c }

  function TickSender(c: Connection, ms: nat): Connection {
    ClearSendbuf(CloseIfOver(c.(sender := Sending.Tick(c.sender, ms))))
  }

  function RetryOrGiveUp(c: Connection, ms: nat): Connection {
    if c.sender.retransmissions >= MAX_RETX_ATTEMPTS then GiveUp(c) else TickSender(c, ms)
  }

  function Tick(c: Connection, ms: nat): Connection {
    RetryOrGiveUp(c.(sinceLastSegment := c.sinceLastSegment + ms), ms)
  }
}
