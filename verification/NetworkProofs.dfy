/**
 What every run of two endpoints keeps, with fewer than 2^31 bytes in each direction.
 */
module NetworkProofs {
  import opened Wrappers
  import opened Wrapping
  import opened Segments
  import opened Reassembly
  import opened ReassemblyProofs
  import opened Sending
  import opened SendingProofs
  import opened Receiving
  import opened ReceivingProofs
  import opened Connections
  import opened ConnectionProofs
  import opened Network

  // ---------- The invariant, one direction at a time ----------

  function Progressed(x: Endpoint): Progress
    requires x.conn.sender.stream.read <= |x.accepted|
  {
    Sent(x.conn.sender, x.accepted)
  }

  ghost predicate OnWire(x: Endpoint, seg: Segment) { seg in x.conn.segmentsOut || seg in x.wire }

  /** The bookkeeping of the sender, and everything on the wire is something it has sent. */
  ghost predicate SendSide(x: Endpoint)
  {
    && SenderInv(x.conn.sender, x.accepted)
    && x.conn.sender.segmentsOut == []
    && x.conn.sender.retransmissions <= MAX_RETX_ATTEMPTS
    && forall seg | OnWire(x, seg) :: Emitted(seg, x.conn.sender.isn, Progressed(x))
  }

  /** One past the highest number the receiver has ever acknowledged. */
  function Limit(rc: Receiver): nat {
    if rc.synSet then rc.reassembler.waitIndex + 1 + One(rc.reassembler.output.ended) else 0
  }

  /** The receiver at `y` holds only bytes sent at `x`, in order. */
  ghost predicate ReceiveSide(x: Endpoint, y: Endpoint)
    requires SendSide(x)
  {
    && ReceiverInv(y.conn.receiver, x.conn.sender.isn, Progressed(x))
    && |y.delivered| == y.conn.Inbound().read <= |x.accepted|
    && y.delivered == x.accepted[..|y.delivered|]
  }

  /** Acknowledgements on the wire, and those that have taken effect, never exceed the receiver's progress. */
  ghost predicate AckSide(x: Endpoint, y: Endpoint)
  {
    && (forall seg | OnWire(y, seg) :: AcksUpTo(seg, x.conn.sender.isn, Limit(y.conn.receiver)))
    && Unacked(x.conn.sender) <= Limit(y.conn.receiver)
  }

  ghost predicate Direction(x: Endpoint, y: Endpoint)
  {
    SendSide(x) && ReceiveSide(x, y) && AckSide(x, y)
  }

  ghost predicate NetInv(n: Net) { Direction(n.a, n.b) && Direction(n.b, n.a) }

  /** A receiver never acknowledges more than its peer has sent. */
  lemma LimitSent(x: Endpoint, y: Endpoint)
    requires SendSide(x) && ReceiveSide(x, y)
    ensures Limit(y.conn.receiver) <= x.conn.sender.nextSeqno
  {
  }

  /** The receiver's acknowledgement, wrapped on the way, tells the sender exactly how far the receiver is. */
  lemma AckNumberExact(x: Endpoint, y: Endpoint) returns (ackno: u32)
    requires SendSide(x) && ReceiveSide(x, y) && |x.accepted| < HALF && y.conn.receiver.synSet
    ensures Ackno(y.conn.receiver) == Some(ackno)
    ensures Unwrap(ackno, x.conn.sender.isn, x.conn.sender.nextSeqno) == Limit(y.conn.receiver)
  {
    var v := Limit(y.conn.receiver);
    LimitSent(x, y);
    ackno := Wrap(v, x.conn.sender.isn);
    UnwrapWrap(v, x.conn.sender.isn, x.conn.sender.nextSeqno);
  }

  /** So it makes the sender give up exactly the segments that the receiver has wholly acknowledged. */
  lemma AckTakesEffect(x: Endpoint, y: Endpoint, window: u16) returns (ackno: u32, k: nat, segs: seq<Segment>)
    requires SendSide(x) && ReceiveSide(x, y) && |x.accepted| < HALF && y.conn.receiver.synSet
    ensures Ackno(y.conn.receiver) == Some(ackno)
    ensures Separates(x.conn.sender, k, Limit(y.conn.receiver))
    ensures AckReceived(x.conn.sender, ackno, window).outstanding == x.conn.sender.outstanding[k..] + segs
  {
    LimitSent(x, y);
    ackno := AckNumberExact(x, y);
    k, segs := AckReceivedExact(x.conn.sender, ackno, window, x.accepted);
  }

  // ---------- Segments leave with the receiver's stamp ----------

  lemma StampKeeps(seg: Segment, rc: Receiver, isn: u32, p: Progress, isn': u32)
    requires Emitted(seg, isn, p) && !seg.header.ack && (rc.synSet ==> rc.initSeqno == isn')
    ensures Emitted(Stamp(seg, rc), isn, p)
    ensures AcksUpTo(Stamp(seg, rc), isn', Limit(rc))
  {
    var a: nat :| a <= |p.bytes| + 2 && SegAt(seg, a, isn, p);
    assert SegAt(Stamp(seg, rc), a, isn, p);
  }

  lemma {:induction false} StampAllKeeps(segs: seq<Segment>, rc: Receiver, isn: u32, p: Progress, isn': u32)
    requires rc.synSet ==> rc.initSeqno == isn'
    requires forall i | 0 <= i < |segs| :: Emitted(segs[i], isn, p) && !segs[i].header.ack
    ensures forall seg | seg in StampAll(segs, rc) :: Emitted(seg, isn, p) && AcksUpTo(seg, isn', Limit(rc))
  {
    if segs != [] {
      StampKeeps(segs[0], rc, isn, p, isn');
      StampAllKeeps(segs[1..], rc, isn, p, isn');
    }
  }

  // ---------- What a call at one endpoint changes ----------

  /**
   The endpoint `x` after a call that left its sender at `s` and its receiver at `rc`, with all that the sender
   queued on its way.
   */
  function After(x: Endpoint, s: Sender, rc: Receiver): Endpoint {
    x.(conn := ClearSendbuf(x.conn.(sender := s, receiver := rc)))
  }

  lemma SenderMovesWire(x: Endpoint, s: Sender, rc: Receiver, isn': u32)
    requires SendSide(x) && Advances(x.conn.sender, s, x.accepted)
    requires rc.synSet ==> rc.initSeqno == isn'
    ensures forall seg | OnWire(After(x, s, rc), seg) :: Emitted(seg, s.isn, Sent(s, x.accepted))
    ensures forall seg | seg in StampAll(s.segmentsOut, rc) :: AcksUpTo(seg, isn', Limit(rc))
  {
    var x' := After(x, s, rc);
    var p, p' := Progressed(x), Sent(s, x.accepted);
    StampAllKeeps(s.segmentsOut, rc, s.isn, p', isn');
    forall seg | OnWire(x', seg) ensures Emitted(seg, s.isn, p') {
      if OnWire(x, seg) {
        EmittedGrows(seg, s.isn, p, p');
      }
    }
  }

  lemma SenderMovesInv(s: Sender, S: seq<Byte>)
    requires SenderInv(s, S)
    ensures SenderInv(s.(segmentsOut := []), S) && Sent(s.(segmentsOut := []), S) == Sent(s, S)
  {
  }

  /** The direction out of `x`: what its sender did is on the wire. */
  lemma SenderMoves(x: Endpoint, y: Endpoint, s: Sender, rc: Receiver)
    requires Direction(x, y)
    requires SenderInv(s, x.accepted) && Advances(x.conn.sender, s, x.accepted)
    requires Unacked(s) <= Limit(y.conn.receiver) && s.retransmissions <= MAX_RETX_ATTEMPTS
    requires rc.synSet ==> rc.initSeqno == y.conn.sender.isn
    ensures Direction(After(x, s, rc), y)
    ensures forall seg | seg in StampAll(s.segmentsOut, rc) :: AcksUpTo(seg, y.conn.sender.isn, Limit(rc))
  {
    SenderMovesInv(s, x.accepted);
    SenderMovesWire(x, s, rc, y.conn.sender.isn);
    ReceiverGrows(y.conn.receiver, s.isn, Progressed(x), Sent(s, x.accepted));
  }

  lemma AcksUpToMonotone(seg: Segment, isn: u32, limit: nat, limit': nat)
    requires AcksUpTo(seg, isn, limit) && limit <= limit'
    ensures AcksUpTo(seg, isn, limit')
  {
  }

  /** The direction into `x`: what its receiver did, and what the stamps on the new segments say. */
  lemma ReceiverMoves(y: Endpoint, x: Endpoint, s: Sender, rc: Receiver)
    requires Direction(y, x)
    requires ReceiverInv(rc, y.conn.sender.isn, Progressed(y))
    requires rc.reassembler.output.read == x.conn.Inbound().read
    requires Limit(x.conn.receiver) <= Limit(rc)
    requires forall seg | seg in StampAll(s.segmentsOut, rc) :: AcksUpTo(seg, y.conn.sender.isn, Limit(rc))
    ensures Direction(y, After(x, s, rc))
  {
    var x' := After(x, s, rc);
    forall seg | OnWire(x', seg) ensures AcksUpTo(seg, y.conn.sender.isn, Limit(rc)) {
      if OnWire(x, seg) {
        AcksUpToMonotone(seg, y.conn.sender.isn, Limit(x.conn.receiver), Limit(rc));
      }
    }
  }

  /** A call that moves only the sender. */
  lemma SenderCall(x: Endpoint, y: Endpoint, s: Sender)
    requires Direction(x, y) && Direction(y, x)
    requires SenderInv(s, x.accepted) && Advances(x.conn.sender, s, x.accepted)
    requires Unacked(s) <= Limit(y.conn.receiver) && s.retransmissions <= MAX_RETX_ATTEMPTS
    ensures Direction(After(x, s, x.conn.receiver), y) && Direction(y, After(x, s, x.conn.receiver))
  {
    SenderMoves(x, y, s, x.conn.receiver);
    ReceiverMoves(y, x, s, x.conn.receiver);
  }

  // ---------- The calls ----------

  ghost predicate SameWire(x: Endpoint, x': Endpoint) { forall seg :: OnWire(x', seg) <==> OnWire(x, seg) }

  function MarkSender(s: Sender, error: bool): Sender { s.(stream := s.stream.(error := error)) }

  function MarkReceiver(rc: Receiver, error: bool): Receiver {
    var r := rc.reassembler;
    rc.(reassembler := r.(output := r.output.(error := error)))
  }

  /** Error marks do not matter, */
  lemma MarkSenderKeeps(s: Sender, error: bool, S: seq<Byte>)
    requires SenderInv(s, S)
    ensures SenderInv(MarkSender(s, error), S) && Sent(MarkSender(s, error), S) == Sent(s, S)
  {
  }

  lemma MarkReceiverKeeps(rc: Receiver, error: bool, isn: u32, p: Progress)
    requires ReceiverInv(rc, isn, p)
    ensures ReceiverInv(MarkReceiver(rc, error), isn, p) && Limit(MarkReceiver(rc, error)) == Limit(rc)
  {
  }

  /** nor do the clock and the flags of the connection: the direction out of an endpoint is about its sender, */
  lemma SameOut(x: Endpoint, x': Endpoint, y: Endpoint)
    requires Direction(x, y) && SameWire(x, x') && x'.accepted == x.accepted
    requires x'.conn.sender == MarkSender(x.conn.sender, x'.conn.Outbound().error)
    ensures Direction(x', y)
  {
    MarkSenderKeeps(x.conn.sender, x'.conn.Outbound().error, x.accepted);
  }

  /** and the direction into it about its receiver. */
  lemma SameIn(y: Endpoint, x: Endpoint, x': Endpoint)
    requires Direction(y, x) && SameWire(x, x') && x'.delivered == x.delivered
    requires x'.conn.receiver == MarkReceiver(x.conn.receiver, x'.conn.Inbound().error)
    ensures Direction(y, x')
  {
    MarkReceiverKeeps(x.conn.receiver, x'.conn.Inbound().error, y.conn.sender.isn, Progressed(y));
  }

  lemma Connects(x: Endpoint, y: Endpoint) returns (x': Endpoint)
    requires Direction(x, y) && Direction(y, x)
    ensures x' == x.(conn := Connect(x.conn)) && Direction(x', y) && Direction(y, x')
  {
    FillWindowProceeds(x.conn.sender, x.accepted, 0);
    SenderCall(x, y, FillWindow(x.conn.sender));
    x' := After(x, FillWindow(x.conn.sender), x.conn.receiver);
  }

  /** Bytes accepted but not yet sent change nothing on the wire. */
  lemma Accepts(x: Endpoint, y: Endpoint, data: seq<Byte>)
    requires Direction(x, y)
    ensures var s := x.conn.sender;
      Direction(x.(conn := x.conn.(sender := s.(stream := s.stream.Write(data))),
                   accepted := x.accepted + data[..s.stream.Accepted(data)]), y)
  {
    var s := x.conn.sender;
    WriteInv(s, data, x.accepted);
    var x1 := x.(conn := x.conn.(sender := s.(stream := s.stream.Write(data))),
                 accepted := x.accepted + data[..s.stream.Accepted(data)]);
    assert SameWire(x, x1) && Progressed(x1) == Progressed(x);
    assert y.delivered == x1.accepted[..|y.delivered|];
  }

  lemma Writes(x: Endpoint, y: Endpoint, data: seq<Byte>) returns (x': Endpoint)
    requires Direction(x, y) && Direction(y, x)
    ensures x' == Act(x, y.wire, Writing(data)) && Direction(x', y) && Direction(y, x')
  {
    var s := x.conn.sender;
    var x1 := x.(conn := x.conn.(sender := s.(stream := s.stream.Write(data))),
                 accepted := x.accepted + data[..s.stream.Accepted(data)]);
    Accepts(x, y, data);
    SameIn(y, x, x1);
    x' := Connects(x1, y);
  }

  lemma EndsOut(x: Endpoint, y: Endpoint)
    requires Direction(x, y)
    ensures var s := x.conn.sender;
      Direction(x.(conn := x.conn.(sender := s.(stream := s.stream.EndInput()))), y)
  {
    var s := x.conn.sender;
    EndInputInv(s, x.accepted);
    assert SameWire(x, x.(conn := x.conn.(sender := s.(stream := s.stream.EndInput()))));
  }

  lemma Ends(x: Endpoint, y: Endpoint) returns (x': Endpoint)
    requires Direction(x, y) && Direction(y, x)
    ensures x' == Act(x, y.wire, Ending) && Direction(x', y) && Direction(y, x')
  {
    var s := x.conn.sender;
    var x1 := x.(conn := x.conn.(sender := s.(stream := s.stream.EndInput())));
    EndsOut(x, y);
    SameIn(y, x, x1);
    x' := Connects(x1, y);
  }

  lemma ReadsReceiver(rc: Receiver, len: nat, isn: u32, p: Progress)
    requires ReceiverInv(rc, isn, p)
    ensures ReceiverInv(rc.(reassembler := ReadOut(rc.reassembler, len)), isn, p)
  {
  }

  lemma ReadsPrefix(S: seq<Byte>, taken: seq<Byte>, buf: seq<Byte>, n: nat)
    requires |taken| + |buf| <= |S| && n <= |buf|
    requires taken == S[..|taken|] && buf == S[|taken|..|taken| + |buf|]
    ensures taken + buf[..n] == S[..|taken| + n]
  {
  }

  /** What is buffered at `x` follows, in what `y` accepted, what was delivered there. */
  lemma BufferedAt(y: Endpoint, x: Endpoint)
    requires SendSide(y) && ReceiveSide(y, x)
    ensures var buf := x.conn.Inbound().buf; var n := |x.delivered|;
      n + |buf| <= |y.accepted| && buf == y.accepted[n..n + |buf|]
  {
    var p, out := Progressed(y), x.conn.Inbound();
    assert Content(x.conn.receiver.reassembler, p.bytes);
    assert out.buf == p.bytes[out.read..out.written];
    assert p.bytes == y.accepted[..|p.bytes|];
  }

  lemma ReadsReceive(y: Endpoint, x: Endpoint, x': Endpoint, len: nat)
    requires SendSide(y) && ReceiveSide(y, x)
    requires x'.conn.receiver == x.conn.receiver.(reassembler := ReadOut(x.conn.receiver.reassembler, len))
    requires x'.delivered == x.delivered + x.conn.Inbound().Peek(len)
    ensures ReceiveSide(y, x')
  {
    ReadsReceiver(x.conn.receiver, len, y.conn.sender.isn, Progressed(y));
    BufferedAt(y, x);
    ReadsPrefix(y.accepted, x.delivered, x.conn.Inbound().buf, Min(len, |x.conn.Inbound().buf|));
  }

  lemma ReadsIn(y: Endpoint, x: Endpoint, len: nat)
    requires Direction(y, x)
    ensures Direction(y, Act(x, y.wire, Reading(len)))
  {
    var x' := Act(x, y.wire, Reading(len));
    ReadsReceive(y, x, x', len);
    assert SameWire(x, x');
  }

  lemma Reads(x: Endpoint, y: Endpoint, len: nat) returns (x': Endpoint)
    requires Direction(x, y) && Direction(y, x)
    ensures x' == Act(x, y.wire, Reading(len)) && Direction(x', y) && Direction(y, x')
  {
    x' := Act(x, y.wire, Reading(len));
    ReadsIn(y, x, len);
    SameOut(x, x', y);
  }

  lemma TransmitsWire(x: Endpoint, wire: set<Segment>)
    ensures SameWire(x, Act(x, wire, Transmitting))
  {
  }

  lemma Transmits(x: Endpoint, y: Endpoint) returns (x': Endpoint)
    requires Direction(x, y) && Direction(y, x)
    ensures x' == Act(x, y.wire, Transmitting) && Direction(x', y) && Direction(y, x')
  {
    x' := Act(x, y.wire, Transmitting);
    TransmitsWire(x, y.wire);
    SameOut(x, x', y);
    SameIn(y, x, x');
  }

  /** What a call leaves behind differs from `After` at most in clock, flags and error marks. */
  ghost predicate LooksLike(c: Connection, c1: Connection)
  {
    && c.segmentsOut == c1.segmentsOut
    && c.sender == MarkSender(c1.sender, c.Outbound().error)
    && c.receiver == MarkReceiver(c1.receiver, c.Inbound().error)
  }

  lemma GiveUpLooks(c: Connection, ms: nat)
    requires c.sender.retransmissions >= MAX_RETX_ATTEMPTS
    ensures LooksLike(Connections.Tick(c, ms), ClearSendbuf(c.(sender := SendEmpty(c.sender, false, false, true))))
  {
  }

  lemma TickLooks(c: Connection, ms: nat)
    requires c.sender.retransmissions < MAX_RETX_ATTEMPTS
    ensures LooksLike(Connections.Tick(c, ms), ClearSendbuf(c.(sender := Sending.Tick(c.sender, ms))))
  {
  }

  lemma ReceivedLooks(c: Connection, seg: Segment)
    ensures var rc := Receive(c.receiver, seg);
      LooksLike(SegmentReceived(c, seg),
                if seg.header.rst then c else ClearSendbuf(c.(receiver := rc, sender := ReactTo(c.sender, rc, seg))))
  {
  }

  lemma LooksSame(x: Endpoint, y: Endpoint, c: Connection) returns (x': Endpoint)
    requires Direction(x, y) && Direction(y, x) && LooksLike(c, x.conn)
    ensures x' == x.(conn := c) && Direction(x', y) && Direction(y, x')
  {
    x' := x.(conn := c);
    SameOut(x, x', y);
    SameIn(y, x, x');
  }

  /** Giving up after too many retries: a reset goes out. */
  lemma GivesUp(x: Endpoint, y: Endpoint, ms: nat) returns (x': Endpoint)
    requires Direction(x, y) && Direction(y, x) && x.conn.sender.retransmissions >= MAX_RETX_ATTEMPTS
    ensures x' == x.(conn := Connections.Tick(x.conn, ms)) && Direction(x', y) && Direction(y, x')
  {
    var s := SendEmpty(x.conn.sender, false, false, true);
    SendEmptyInv(x.conn.sender, true, x.accepted);
    SenderCall(x, y, s);
    GiveUpLooks(x.conn, ms);
    x' := LooksSame(After(x, s, x.conn.receiver), y, Connections.Tick(x.conn, ms));
  }

  lemma TicksOn(x: Endpoint, y: Endpoint, ms: nat) returns (x': Endpoint)
    requires Direction(x, y) && Direction(y, x) && x.conn.sender.retransmissions < MAX_RETX_ATTEMPTS
    ensures x' == x.(conn := Connections.Tick(x.conn, ms)) && Direction(x', y) && Direction(y, x')
  {
    var s := Sending.Tick(x.conn.sender, ms);
    TickProceeds(x.conn.sender, ms, x.accepted);
    SenderCall(x, y, s);
    TickLooks(x.conn, ms);
    x' := LooksSame(After(x, s, x.conn.receiver), y, Connections.Tick(x.conn, ms));
  }

  lemma ReceivesSegment(x: Endpoint, y: Endpoint, seg: Segment) returns (x': Endpoint)
    requires Direction(x, y) && Direction(y, x) && OnWire(y, seg)
    requires |x.accepted| < HALF && |y.accepted| < HALF
    ensures x' == After(x, ReactTo(x.conn.sender, Receive(x.conn.receiver, seg), seg), Receive(x.conn.receiver, seg))
    ensures Direction(x', y) && Direction(y, x')
  {
    var s := x.conn.sender;
    var rc := Receive(x.conn.receiver, seg);
    ReceiveInv(x.conn.receiver, seg, y.conn.sender.isn, Progressed(y));
    LimitSent(x, y);
    ReactProceeds(s, rc, seg, x.accepted, Limit(y.conn.receiver));
    var s' := ReactTo(s, rc, seg);
    ReceiveReads(x.conn.receiver, seg);
    SenderMoves(x, y, s', rc);
    ReceiverMoves(y, x, s', rc);
    x' := After(x, s', rc);
  }

  lemma Receives(x: Endpoint, y: Endpoint, seg: Segment) returns (x': Endpoint)
    requires Direction(x, y) && Direction(y, x) && OnWire(y, seg)
    requires |x.accepted| < HALF && |y.accepted| < HALF
    ensures x' == x.(conn := SegmentReceived(x.conn, seg)) && Direction(x', y) && Direction(y, x')
  {
    ReceivedLooks(x.conn, seg);
    var x1 := x;
    if !seg.header.rst {
      x1 := ReceivesSegment(x, y, seg);
    }
    x' := LooksSame(x1, y, SegmentReceived(x.conn, seg));
  }

  lemma ReceiveReads(rc: Receiver, seg: Segment)
    requires Inv(rc.reassembler)
    ensures Receive(rc, seg).reassembler.output.read == rc.reassembler.output.read
  {
    var rc1 := TakeSyn(rc, seg);
    PushInv(rc1.reassembler, seg.payload, StreamIndex(rc1, seg), seg.header.fin);
  }

  lemma ActKeeps(x: Endpoint, y: Endpoint, act: Action) returns (x': Endpoint)
    requires Direction(x, y) && Direction(y, x)
    requires |x.accepted| < HALF && |y.accepted| < HALF
    ensures x' == Act(x, y.wire, act) && Direction(x', y) && Direction(y, x')
  {
    match act
    case Connecting => x' := Connects(x, y);
    case Writing(data) => x' := Writes(x, y, data);
    case Ending => x' := Ends(x, y);
    case Reading(len) => x' := Reads(x, y, len);
    case Ticking(ms) =>
      if x.conn.sender.retransmissions >= MAX_RETX_ATTEMPTS {
        x' := GivesUp(x, y, ms);
      } else {
        x' := TicksOn(x, y, ms);
      }
    case Transmitting => x' := Transmits(x, y);
    case Receiving(seg) =>
      if seg in y.wire {
        x' := Receives(x, y, seg);
      } else {
        x' := x;
      }
  }

  // ---------- Every run ----------

  ghost predicate Small(n: Net) { |n.a.accepted| < HALF && |n.b.accepted| < HALF }

  lemma SmallBefore(n: Net, ev: Event)
    requires Small(Step(n, ev))
    ensures Small(n)
  {
  }

  lemma {:induction false} RunKeeps(cfgA: Config, cfgB: Config, events: seq<Event>)
    requires cfgA.recvCapacity < U64 && cfgB.recvCapacity < U64
    requires Small(Run(cfgA, cfgB, events))
    ensures NetInv(Run(cfgA, cfgB, events))
  {
    if events == [] {
      NewSenderInv(cfgA.sendCapacity, cfgA.rtTimeout, cfgA.isn);
      NewSenderInv(cfgB.sendCapacity, cfgB.rtTimeout, cfgB.isn);
      NewReceiverInv(cfgA.recvCapacity, cfgB.isn);
      NewReceiverInv(cfgB.recvCapacity, cfgA.isn);
    } else {
      var n, ev := Run(cfgA, cfgB, events[..|events|-1]), events[|events|-1];
      SmallBefore(n, ev);
      RunKeeps(cfgA, cfgB, events[..|events|-1]);
      match ev
      case AtA(act) => var a := ActKeeps(n.a, n.b, act);
      case AtB(act) => var b := ActKeeps(n.b, n.a, act);
    }
  }

  /** Everything the application at `y` has read or can read. */
  function Received(y: Endpoint): seq<Byte> { y.delivered + y.conn.Inbound().buf }

  /** The bytes of which the sender at `x` keeps no copy for retransmission any more. */
  function AckedBytes(x: Endpoint): seq<Byte> {
    x.accepted[..Min(Max(Unacked(x.conn.sender) - 1, 0), |x.accepted|)]
  }

  /** What has been received is a prefix of what was accepted for sending. */
  ghost predicate Prefix(x: Endpoint, y: Endpoint) { Received(y) <= x.accepted }

  /**
   Until the receiver has seen a FIN, every byte the sender has given up had been received. Once the receiver's
   input has ended, an acknowledgement may run one byte ahead.
   */
  ghost predicate NothingLost(x: Endpoint, y: Endpoint)
  {
    && (!y.conn.receiver.finSet ==> AckedBytes(x) <= Received(y))
    && |AckedBytes(x)| <= |Received(y)| + One(y.conn.Inbound().ended)
  }

  lemma DirectionSafe(x: Endpoint, y: Endpoint)
    requires Direction(x, y)
    ensures Prefix(x, y) && NothingLost(x, y)
  {
    var r := y.conn.receiver.reassembler;
    assert Progressed(x).bytes <= x.accepted;
    assert Received(y) == x.accepted[..r.output.written];
  }

  /** End-to-end safety, in both directions, over every run. */
  lemma EndToEnd(cfgA: Config, cfgB: Config, events: seq<Event>)
    requires cfgA.recvCapacity < U64 && cfgB.recvCapacity < U64
    requires Small(Run(cfgA, cfgB, events))
    ensures var n := Run(cfgA, cfgB, events);
      Prefix(n.a, n.b) && Prefix(n.b, n.a) && NothingLost(n.a, n.b) && NothingLost(n.b, n.a)
  {
    RunKeeps(cfgA, cfgB, events);
    var n := Run(cfgA, cfgB, events);
    DirectionSafe(n.a, n.b);
    DirectionSafe(n.b, n.a);
  }
}
