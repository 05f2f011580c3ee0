/**
 A receiver whose application has read everything can go on: if a byte is missing, the segment that its sender sends
 again, once it has the receiver's acknowledgement, brings it and is not refused. Bytes may wait beyond the window,
 because an old acknowledgement that arrives again restores an old window, but never so many that there is no room for
 the next one in order.
 */
module NetworkProgress {
  import opened Wrappers
  import opened Wrapping
  import opened Segments
  import opened ReassemblyProofs
  import opened Sending
  import opened SendingProofs
  import opened Receiving
  import opened ReceivingProofs
  import opened Connections
  import opened ConnectionProofs
  import opened Network
  import opened EndpointRuns
  import opened NetworkProofs

  // ---------- What is in flight never exceeds the peer's capacity ----------

  ghost predicate Bounded(s: Sender, b: nat) { s.window <= b && InFlight(s.outstanding) <= b }

  lemma FillBounded(s: Sender, S: seq<Byte>, b: nat)
    requires SenderInv(s, S) && Bounded(s, b) && b >= 1
    ensures SenderInv(FillWindow(s), S) && Bounded(FillWindow(s), b)
  {
    var s', segs := Refill(s, S);
  }

  lemma AnswerBounded(s: Sender, seg: Segment, S: seq<Byte>, b: nat)
    requires SenderInv(s, S) && Bounded(s, b) && b >= 1
    ensures Bounded(Answer(s, seg), b)
  {
    FillBounded(s, S, b);
  }

  lemma ReactBounded(s: Sender, rc: Receiver, seg: Segment, S: seq<Byte>, b: nat)
    requires SenderInv(s, S) && s.nextSeqno < U64 - HALF && Bounded(s, b) && b >= 1 && seg.header.win <= b
    ensures Bounded(ReactTo(s, rc, seg), b)
  {
    var s1 := s;
    if seg.header.ack {
      var k, segs := AckReceivedExact(s, seg.header.ackno, seg.header.win, S);
      s1 := AckReceived(s, seg.header.ackno, seg.header.win);
    }
    AnswerBounded(s1, seg, S, b);
  }

  lemma TickBounded(s: Sender, ms: nat, b: nat)
    requires Bounded(s, b)
    ensures Bounded(Sending.Tick(s, ms), b)
  {
  }

  /** Every window on its way was once the free part of the capacity. */
  ghost predicate Announced(x: Endpoint) { forall seg | OnWire(x, seg) :: seg.header.win <= x.conn.receiver.capacity }

  /** The peer's capacity, or the one byte with which a closed window is probed. */
  function Bound(y: Endpoint): nat { Max(1, y.conn.receiver.capacity) }

  ghost predicate Fair(x: Endpoint, y: Endpoint) { Bounded(x.conn.sender, Bound(y)) && Announced(x) }

  lemma StampAnnounced(segs: seq<Segment>, rc: Receiver)
    requires |rc.reassembler.output.buf| <= rc.capacity
    ensures forall seg | seg in StampAll(segs, rc) :: seg.header.win <= rc.capacity
  {
    StampAllAt(segs, rc);
  }

  /** A call that leaves the sender at `s` and the receiver at `rc`. */
  lemma AfterFair(x: Endpoint, y: Endpoint, s: Sender, rc: Receiver)
    requires Fair(x, y) && Bounded(s, Bound(y))
    requires rc.capacity == x.conn.receiver.capacity && |rc.reassembler.output.buf| <= rc.capacity
    ensures Fair(After(x, s, rc), y)
  {
    StampAnnounced(s.segmentsOut, rc);
  }

  lemma LooksFair(x: Endpoint, y: Endpoint, c: Connection)
    requires Fair(x, y) && LooksLike(c, x.conn)
    ensures Fair(x.(conn := c), y)
  {
  }

  lemma ConnectsFair(x: Endpoint, y: Endpoint)
    requires Direction(x, y) && Direction(y, x) && Fair(x, y)
    ensures Fair(x.(conn := Connect(x.conn)), y)
  {
    FillBounded(x.conn.sender, x.accepted, Bound(y));
    AfterFair(x, y, FillWindow(x.conn.sender), x.conn.receiver);
  }

  lemma WritesFair(x: Endpoint, y: Endpoint, data: seq<Byte>)
    requires Direction(x, y) && Direction(y, x) && Fair(x, y)
    ensures Fair(Act(x, y.wire, Writing(data)), y)
  {
    var s := x.conn.sender;
    var x1 := x.(conn := x.conn.(sender := s.(stream := s.stream.Write(data))),
                 accepted := x.accepted + data[..s.stream.Accepted(data)]);
    Accepts(x, y, data);
    SameIn(y, x, x1);
    ConnectsFair(x1, y);
  }

  lemma EndsFair(x: Endpoint, y: Endpoint)
    requires Direction(x, y) && Direction(y, x) && Fair(x, y)
    ensures Fair(Act(x, y.wire, Ending), y)
  {
    var s := x.conn.sender;
    var x1 := x.(conn := x.conn.(sender := s.(stream := s.stream.EndInput())));
    EndsOut(x, y);
    SameIn(y, x, x1);
    ConnectsFair(x1, y);
  }

  lemma TicksFair(x: Endpoint, y: Endpoint, ms: nat)
    requires Direction(y, x) && Fair(x, y)
    ensures Fair(x.(conn := Connections.Tick(x.conn, ms)), y)
  {
    var s := x.conn.sender;
    if s.retransmissions >= MAX_RETX_ATTEMPTS {
      s := SendEmpty(s, false, false, true);
      GiveUpLooks(x.conn, ms);
    } else {
      TickBounded(s, ms, Bound(y));
      s := Sending.Tick(s, ms);
      TickLooks(x.conn, ms);
    }
    AfterFair(x, y, s, x.conn.receiver);
    LooksFair(After(x, s, x.conn.receiver), y, Connections.Tick(x.conn, ms));
  }

  lemma ReceiveCapacity(rc: Receiver, seg: Segment)
    ensures Receive(rc, seg).capacity == rc.capacity
  {
  }

  lemma ReceivesFair(x: Endpoint, y: Endpoint, seg: Segment)
    requires Direction(x, y) && Direction(y, x) && Fair(x, y) && Announced(y) && OnWire(y, seg)
    requires |x.accepted| < HALF && |y.accepted| < HALF
    ensures Fair(x.(conn := SegmentReceived(x.conn, seg)), y)
  {
    ReceivedLooks(x.conn, seg);
    var x1 := x;
    if !seg.header.rst {
      var rc := Receive(x.conn.receiver, seg);
      ReceiveInv(x.conn.receiver, seg, y.conn.sender.isn, Progressed(y));
      ReceiveCapacity(x.conn.receiver, seg);
      ReactBounded(x.conn.sender, rc, seg, x.accepted, Bound(y));
      AfterFair(x, y, ReactTo(x.conn.sender, rc, seg), rc);
      x1 := After(x, ReactTo(x.conn.sender, rc, seg), rc);
    }
    LooksFair(x1, y, SegmentReceived(x.conn, seg));
  }

  lemma TransmitsFair(x: Endpoint, y: Endpoint)
    requires Fair(x, y)
    ensures Fair(Act(x, y.wire, Transmitting), y)
  {
    TransmitsWire(x, y.wire);
  }

  lemma ReadsFair(x: Endpoint, y: Endpoint, len: nat)
    requires Fair(x, y)
    ensures Fair(Act(x, y.wire, Reading(len)), y)
  {
  }

  lemma ActCapacity(x: Endpoint, peerWire: set<Segment>, act: Action)
    ensures Act(x, peerWire, act).conn.receiver.capacity == x.conn.receiver.capacity
  {
    if act.Receiving? {
      ReceiveCapacity(x.conn.receiver, act.seg);
    }
  }

  lemma ActFair(x: Endpoint, y: Endpoint, act: Action)
    requires Direction(x, y) && Direction(y, x) && Fair(x, y) && Announced(y)
    requires |x.accepted| < HALF && |y.accepted| < HALF
    ensures Fair(Act(x, y.wire, act), y)
  {
    match act
    case Connecting => ConnectsFair(x, y);
    case Writing(data) => WritesFair(x, y, data);
    case Ending => EndsFair(x, y);
    case Reading(len) => ReadsFair(x, y, len);
    case Ticking(ms) => TicksFair(x, y, ms);
    case Transmitting => TransmitsFair(x, y);
    case Receiving(seg) =>
      if seg in y.wire {
        ReceivesFair(x, y, seg);
      }
  }

  ghost predicate Sized(n: Net, cfgA: Config, cfgB: Config)
  {
    n.a.conn.receiver.capacity == cfgA.recvCapacity && n.b.conn.receiver.capacity == cfgB.recvCapacity
  }

  /** In every run, no sender has more in flight than its peer's capacity, whatever old windows arrive again. */
  lemma {:induction false} RunFair(cfgA: Config, cfgB: Config, events: seq<Event>)
    requires cfgA.recvCapacity < U64 && cfgB.recvCapacity < U64 && Small(Run(cfgA, cfgB, events))
    ensures var n := Run(cfgA, cfgB, events); Sized(n, cfgA, cfgB) && Fair(n.a, n.b) && Fair(n.b, n.a)
  {
    if events != [] {
      var n, ev := Run(cfgA, cfgB, events[..|events|-1]), events[|events|-1];
      SmallBefore(n, ev);
      RunKeeps(cfgA, cfgB, events[..|events|-1]);
      RunFair(cfgA, cfgB, events[..|events|-1]);
      match ev
      case AtA(act) => ActFair(n.a, n.b, act); ActCapacity(n.a, n.b.wire, act);
      case AtB(act) => ActFair(n.b, n.a, act); ActCapacity(n.b, n.a.wire, act);
    }
  }

  // ---------- So there is always room for the next byte ----------

  /** The receiver at `y` is open and has nothing left to read, and a byte that `x` has sent is missing. */
  ghost predicate Waits(x: Endpoint, y: Endpoint)
  {
    var rc := y.conn.receiver;
    && rc.synSet && !y.conn.Inbound().ended && y.conn.Inbound().buf == []
    && rc.reassembler.waitIndex < x.conn.Outbound().read
  }

  lemma HasRoom(x: Endpoint, y: Endpoint)
    requires Direction(x, y) && Fair(x, y) && Waits(x, y) && y.conn.receiver.capacity > 0
    ensures Stored(y.conn.receiver.reassembler) < y.conn.receiver.capacity
  {
    var r, p := y.conn.receiver.reassembler, Progressed(x);
    assert |p.bytes| <= r.waitIndex + r.capacity;
    assert forall e | e in r.waiting :: Agrees(p.bytes, e.start, e.data);
    CountDisjoint(r.waiting, r.waitIndex + 1, r.waitIndex + r.capacity);
  }

  ghost predicate Brings(seg: Segment, i: nat, isn: u32, p: Progress)
  {
    exists a: nat :: SegAt(seg, a, isn, p) && FirstByte(a) <= i < FirstByte(a) + |seg.payload|
  }

  /** The segment, sent again by `x`, advances the receiver at `y`. */
  predicate GoesOn(x: Endpoint, y: Endpoint, seg: Segment) {
    var rc := y.conn.receiver;
    Receive(rc, Stamp(seg, x.conn.receiver)).reassembler.waitIndex > rc.reassembler.waitIndex
  }

  lemma StampBrings(seg: Segment, rc: Receiver, a: nat, isn: u32, p: Progress)
    requires SegAt(seg, a, isn, p)
    ensures SegAt(Stamp(seg, rc), a, isn, p) && Stamp(seg, rc).payload == seg.payload
  {
  }

  lemma Advanced(rc: Receiver, seg: Segment, other: Receiver, isn: u32, p: Progress)
    requires ReceiverInv(rc, isn, p) && rc.synSet && |p.bytes| < HALF && Edge(rc.reassembler) < U64
    requires !rc.reassembler.output.ended && Stored(rc.reassembler) < rc.capacity
    requires Brings(seg, rc.reassembler.waitIndex, isn, p)
    ensures Receive(rc, Stamp(seg, other)).reassembler.waitIndex > rc.reassembler.waitIndex
  {
    var i := rc.reassembler.waitIndex;
    var a: nat :| SegAt(seg, a, isn, p) && FirstByte(a) <= i < FirstByte(a) + |seg.payload|;
    StampBrings(seg, other, a, isn, p);
    ReceiveAdvances(rc, Stamp(seg, other), a, isn, p);
  }

  // ---------- And the segment that brings it is the one that is sent again ----------

  lemma EndIsNext(segs: seq<Segment>, k: nat)
    requires k < |segs|
    ensures InFlight(segs[..k + 1]) == InFlight(segs[..k]) + segs[k].Length()
  {
    assert segs[..k + 1] == segs[..k] + [segs[k]];
    assert [segs[k]][1..] == [];
    InFlightAppend(segs[..k], [segs[k]]);
  }

  /** What an acknowledgement of `v` leaves in front ends beyond `v`. */
  lemma FrontBeyond(s: Sender, ackno: u32, window: u16, S: seq<Byte>, v: nat)
    requires SenderInv(s, S) && s.nextSeqno < U64 - HALF
    requires Unacked(s) <= Unwrap(ackno, s.isn, s.nextSeqno) == v < s.nextSeqno
    ensures var s' := AckReceived(s, ackno, window);
      && s'.outstanding != [] && Unacked(s') + s'.outstanding[0].Length() > v
      && s'.outstanding[0] in s.outstanding
  {
    var k, segs := AckReceivedExact(s, ackno, window, S);
    var n := |s.outstanding|;
    assert s.outstanding[..n] == s.outstanding;
    assert n > 0 && SegmentEnd(s, n - 1) == s.nextSeqno;
    EndIsNext(s.outstanding, k);
    assert SegmentEnd(s, k) > v;
    assert AckReceived(s, ackno, window).outstanding[0] == s.outstanding[k];
  }

  /** The front segment has the number `i + 1`, so it brings byte `i`. */
  lemma FrontBrings(s: Sender, S: seq<Byte>, i: nat)
    requires SenderInv(s, S) && s.outstanding != [] && i < s.stream.read
    requires Unacked(s) <= i + 1 < Unacked(s) + s.outstanding[0].Length()
    ensures Brings(s.outstanding[0], i, s.isn, Sent(s, S))
  {
    assert SegAt(s.outstanding[0], Unacked(s), s.isn, Sent(s, S));
  }

  lemma Unstuck(x: Endpoint, y: Endpoint, window: u16) returns (ackno: u32)
    requires Direction(x, y) && Fair(x, y) && Waits(x, y) && |x.accepted| < HALF
    requires y.conn.receiver.capacity > 0 && Edge(y.conn.receiver.reassembler) < U64
    ensures Ackno(y.conn.receiver) == Some(ackno)
    ensures var s' := AckReceived(x.conn.sender, ackno, window);
      s'.outstanding != [] && s'.outstanding[0] in x.conn.sender.outstanding && GoesOn(x, y, s'.outstanding[0])
  {
    var s, S, rc := x.conn.sender, x.accepted, y.conn.receiver;
    var i := rc.reassembler.waitIndex;
    ackno := AckNumberExact(x, y);
    var s' := AckReceived(s, ackno, window);
    var k, segs := AckReceivedExact(s, ackno, window, S);
    AckReceivedAdvances(s, ackno, window, S);
    FrontBeyond(s, ackno, window, S, i + 1);
    FrontBrings(s', S, i);
    HasRoom(x, y);
    ReceiverGrows(rc, s.isn, Progressed(x), Sent(s', S));
    Advanced(rc, s'.outstanding[0], x.conn.receiver, s.isn, Sent(s', S));
  }

  /**
   In every run, let a receiver be open and drained and lack a byte that was sent. Once its peer has its
   acknowledgement, with whatever window, the oldest segment the peer keeps, which is the one sent again, advances the
   receiver.
   */
  lemma NeverStuck(cfgA: Config, cfgB: Config, events: seq<Event>, atA: bool, window: u16) returns (ackno: u32)
    requires cfgA.recvCapacity < U64 - HALF && cfgB.recvCapacity < U64 - HALF
    requires ConfigAt(cfgA, cfgB, !atA).recvCapacity > 0 && Small(Run(cfgA, cfgB, events))
    requires Waits(At(Run(cfgA, cfgB, events), atA), At(Run(cfgA, cfgB, events), !atA))
    ensures var n := Run(cfgA, cfgB, events); var x, y := At(n, atA), At(n, !atA);
      var s' := AckReceived(x.conn.sender, ackno, window);
      && Ackno(y.conn.receiver) == Some(ackno)
      && s'.outstanding != [] && s'.outstanding[0] in x.conn.sender.outstanding && GoesOn(x, y, s'.outstanding[0])
  {
    RunKeeps(cfgA, cfgB, events);
    RunFair(cfgA, cfgB, events);
    var n := Run(cfgA, cfgB, events);
    ackno := Unstuck(At(n, atA), At(n, !atA), window);
  }
}
