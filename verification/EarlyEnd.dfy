/**
 A run of two honest endpoints at the end of which a byte has been acknowledged and given up, and was never received:
 of a byte and a FIN in two segments, only the second arrives.
 */
module EarlyEnd {
  import opened Wrappers
  import opened Wrapping
  import opened ByteStreams
  import opened Segments
  import opened Sending
  import opened SendingProofs
  import opened Receiving
  import opened Connections
  import opened Network
  import opened NetworkProofs

  const CFG: Config := Config(1000, 10, 10, 0)

  // ---------- The senders on the way ----------

  const SYN: Segment := Segment(BLANK.(seqno := 0, syn := true), [])
  const DATA: Segment := Segment(BLANK.(seqno := 1), [7])
  const FIN: Segment := Segment(BLANK.(seqno := 2, fin := true), [])
  const PLAIN: Segment := Segment(BLANK.(seqno := 1), [])

  const START: Sender := NewSender(10, 1000, 0)
  const CALLING: Sender :=
    START.(outstanding := [SYN], nextSeqno := 1, synSent := true, timer := Started(1000))
  const OPEN: Sender := CALLING.(outstanding := [], window := 10, timer := IDLE)
  const WRITTEN: Sender :=
    OPEN.(outstanding := [DATA], nextSeqno := 2, timer := Started(1000), stream := Stream(10, [], 1, 1, false, false))
  const ENDED: Sender :=
    WRITTEN.(outstanding := [DATA, FIN], nextSeqno := 3, finSent := true,
             stream := Stream(10, [], 1, 1, true, false))

  /** One segment is sent, and then there is nothing more to send or no more room. */
  lemma FillsOne(s: Sender, seg: Segment)
    requires InFlight(s.outstanding) < EffectiveWindow(s)
    requires var room := EffectiveWindow(s) - InFlight(s.outstanding);
      && seg == NextSegment(s, room) && seg.Length() > 0
      && (room == seg.Length() || NextSegment(Send(s, seg), room - seg.Length()).Length() == 0)
    ensures FillWindow(s) == Send(s, seg)
  {
    var room := EffectiveWindow(s) - InFlight(s.outstanding);
    assert FillRoom(Send(s, seg), room - seg.Length()) == Send(s, seg);
    assert FillRoom(s, room) == FillRoom(Send(s, seg), room - seg.Length());
  }

  lemma FillsNone(s: Sender)
    requires InFlight(s.outstanding) < EffectiveWindow(s)
    requires NextSegment(s, EffectiveWindow(s) - InFlight(s.outstanding)).Length() == 0
    ensures FillWindow(s) == s
  {
  }

  lemma Calls()
    ensures FillWindow(START) == CALLING.(segmentsOut := [SYN])
  {
    FillsOne(START, SYN);
  }

  lemma CallAcked()
    ensures AckReceived(CALLING, 1, 10) == OPEN
  {
    var s := CALLING.(window := 10);
    assert s.outstanding[1..] == [];
    assert Unwrap(1, 0, 1) == 1 && Unwrap(0, 0, 1) == 0;
    assert DropAcked(s, 1) == DropAcked(DropFirst(s), 1) == DropFirst(s);
    assert Acknowledge(s, 1) == OPEN;
    FillsNone(OPEN);
  }

  lemma Answers(seg: Segment)
    requires seg.Length() > 0
    ensures Answer(OPEN, seg) == OPEN.(segmentsOut := [PLAIN])
  {
    FillsNone(OPEN);
  }

  lemma WritesByte()
    ensures FillWindow(OPEN.(stream := OPEN.stream.Write([7]))) == WRITTEN.(segmentsOut := [DATA])
  {
    var s := OPEN.(stream := OPEN.stream.Write([7]));
    assert [] + [7] == [7];
    assert s.stream == Stream(10, [7], 1, 0, false, false);
    assert [7][..1] == [7] && [7][1..] == [];
    FillsOne(s, DATA);
  }

  lemma EndsStream()
    ensures FillWindow(WRITTEN.(stream := WRITTEN.stream.EndInput())) == ENDED.(segmentsOut := [FIN])
  {
    var s := WRITTEN.(stream := WRITTEN.stream.EndInput());
    assert WRITTEN.outstanding[1..] == [];
    assert [DATA] + [FIN] == [DATA, FIN];
    FillsOne(s, FIN);
  }

  lemma ByteAcked()
    ensures var s := AckReceived(ENDED, 2, 10); s.outstanding == [FIN] && s.nextSeqno == 3 && s.segmentsOut == []
  {
    assert ENDED.outstanding[1..] == [FIN] && [FIN][1..] == [];
    assert Unwrap(2, 0, 3) == 2 && Unwrap(1, 0, 3) == 1;
    var s := ENDED.(window := 10, outstanding := [FIN]);
    assert DropAcked(s, 2) == s;
    assert DropAcked(ENDED, 2) == DropAcked(DropFirst(ENDED), 2) == s;
    FillsNone(s);
  }

  // ---------- The receivers on the way, and what is on the wire ----------

  const FRESH: Receiver := NewReceiver(10)
  const CALLED: Receiver := FRESH.(synSet := true)
  const CLOSED: Receiver :=
    CALLED.(finSet := true, reassembler := CALLED.reassembler.(output := Empty(10).EndInput()))

  const SYN_A: Segment := Stamp(SYN, FRESH)
  const SYN_B: Segment := Stamp(SYN, CALLED)
  const FIN_A: Segment := Stamp(FIN, CALLED)
  const ACK_B: Segment := Stamp(PLAIN, CLOSED)

  lemma Stamps()
    ensures !SYN_A.header.ack && SYN_A.Length() == 1
    ensures SYN_B.header.ack && SYN_B.header.ackno == 1 && SYN_B.header.win == 10 && SYN_B.Length() == 1
    ensures FIN_A.header.ack && FIN_A.header.ackno == 1 && FIN_A.header.win == 10 && FIN_A.Length() == 1
    ensures ACK_B.header.ack && ACK_B.header.ackno == 2 && ACK_B.header.win == 10 && ACK_B.Length() == 0
  {
    assert WindowSize(FRESH) == WindowSize(CALLED) == WindowSize(CLOSED) == 10;
    assert Ackno(CALLED) == Some(1) && Ackno(CLOSED) == Some(2);
  }

  lemma Receptions()
    ensures Receive(FRESH, SYN_A) == CALLED && Receive(FRESH, SYN_B) == CALLED
    ensures Receive(CALLED, FIN_A) == CLOSED && Receive(CALLED, ACK_B) == CALLED
  {
    Stamps();
  }

  lemma StampOne(seg: Segment, rc: Receiver)
    ensures StampAll([seg], rc) == [Stamp(seg, rc)]
  {
    assert [seg][1..] == [];
  }

  lemma Reactions()
    ensures ReactTo(START, CALLED, SYN_A) == CALLING.(segmentsOut := [SYN])
    ensures ReactTo(CALLING, CALLED, SYN_B) == OPEN.(segmentsOut := [PLAIN])
    ensures ReactTo(CALLING, CLOSED, FIN_A) == OPEN.(segmentsOut := [PLAIN])
    ensures var s := ReactTo(ENDED, CALLED, ACK_B); s.outstanding == [FIN] && s.nextSeqno == 3
  {
    Stamps();
    Calls();
    CallAcked();
    Answers(SYN_B);
    Answers(FIN_A);
    ByteAcked();
  }

  // ---------- The two endpoints, event by event ----------

  ghost predicate Shows(e: Endpoint, s: Sender, rc: Receiver, queue: seq<Segment>, accepted: seq<Byte>)
  {
    && e.conn.sender == s && e.conn.receiver == rc && e.conn.segmentsOut == queue
    && e.accepted == accepted && e.delivered == []
  }

  lemma Queues(e: Endpoint, wire: set<Segment>, act: Action, s: Sender, s': Sender, out: Segment, S: seq<Byte>)
    requires act.Connecting? || act.Writing? || act.Ending?
    requires FillWindow(match act case Writing(d) => s.(stream := s.stream.Write(d))
                                  case Ending => s.(stream := s.stream.EndInput()) case _ => s)
          == s'.(segmentsOut := [out]) && s'.segmentsOut == []
    requires Shows(e, s, e.conn.receiver, e.conn.segmentsOut, S)
    ensures var e' := Act(e, wire, act);
      && e'.wire == e.wire
      && Shows(e', s', e.conn.receiver, e.conn.segmentsOut + [Stamp(out, e.conn.receiver)],
               if act.Writing? then S + act.data[..s.stream.Accepted(act.data)] else S)
  {
    StampOne(out, e.conn.receiver);
  }

  lemma Transmitted(e: Endpoint, wire: set<Segment>, s: Sender, rc: Receiver, queue: seq<Segment>, S: seq<Byte>)
    requires Shows(e, s, rc, queue, S) && queue != []
    ensures var e' := Act(e, wire, Transmitting); Shows(e', s, rc, queue[1..], S) && e'.wire == e.wire + {queue[0]}
  {
  }

  lemma Arrived(e: Endpoint, wire: set<Segment>, seg: Segment, s: Sender, rc: Receiver, s': Sender, rc': Receiver,
                out: Segment)
    requires seg in wire && !seg.header.rst && Shows(e, s, rc, [], e.accepted)
    requires rc' == Receive(rc, seg) && ReactTo(s, rc', seg) == s'.(segmentsOut := [out]) && s'.segmentsOut == []
    ensures var e' := Act(e, wire, Receiving(seg));
      Shows(e', s', rc', [Stamp(out, rc')], e.accepted) && e'.wire == e.wire
  {
    StampOne(out, rc');
  }

  lemma Snoc(events: seq<Event>, ev: Event)
    ensures Run(CFG, CFG, events + [ev]) == Step(Run(CFG, CFG, events), ev)
  {
    assert (events + [ev])[..|events + [ev]|-1] == events;
  }

  /** The handshake. */
  lemma Handshake() returns (events: seq<Event>)
    ensures var n := Run(CFG, CFG, events);
      && Shows(n.a, OPEN, CALLED, [Stamp(PLAIN, CALLED)], []) && Shows(n.b, CALLING, CALLED, [], [])
  {
    Stamps();
    Receptions();
    Reactions();
    Calls();
    var n := Run(CFG, CFG, []);
    Queues(n.a, n.b.wire, Connecting, START, CALLING, SYN, []);
    Snoc([], AtA(Connecting));
    events := [] + [AtA(Connecting)];
    n := Run(CFG, CFG, events);
    Transmitted(n.a, n.b.wire, CALLING, FRESH, [SYN_A], []);
    Snoc(events, AtA(Transmitting));
    events := events + [AtA(Transmitting)];
    n := Run(CFG, CFG, events);
    Arrived(n.b, n.a.wire, SYN_A, START, FRESH, CALLING, CALLED, SYN);
    Snoc(events, AtB(Receiving(SYN_A)));
    events := events + [AtB(Receiving(SYN_A))];
    n := Run(CFG, CFG, events);
    Transmitted(n.b, n.a.wire, CALLING, CALLED, [SYN_B], []);
    Snoc(events, AtB(Transmitting));
    events := events + [AtB(Transmitting)];
    n := Run(CFG, CFG, events);
    Arrived(n.a, n.b.wire, SYN_B, CALLING, FRESH, OPEN, CALLED, PLAIN);
    Snoc(events, AtA(Receiving(SYN_B)));
    events := events + [AtA(Receiving(SYN_B))];
  }

  /** One end sends a byte, and then a FIN. */
  lemma ByteThenFin() returns (events: seq<Event>)
    ensures var n := Run(CFG, CFG, events);
      && Shows(n.a, ENDED, CALLED, [], [7]) && FIN_A in n.a.wire && Shows(n.b, CALLING, CALLED, [], [])
  {
    events := Handshake();
    WritesByte();
    EndsStream();
    var n := Run(CFG, CFG, events);
    Queues(n.a, n.b.wire, Writing([7]), OPEN, WRITTEN, DATA, []);
    assert [] + [7][..1] == [7];
    Snoc(events, AtA(Writing([7])));
    events := events + [AtA(Writing([7]))];
    n := Run(CFG, CFG, events);
    Queues(n.a, n.b.wire, Ending, WRITTEN, ENDED, FIN, [7]);
    Snoc(events, AtA(Ending));
    events := events + [AtA(Ending)];
    n := Run(CFG, CFG, events);
    var queue := [Stamp(PLAIN, CALLED), Stamp(DATA, CALLED), FIN_A];
    assert n.a.conn.segmentsOut == queue;
    for i := 0 to 3
      invariant n == Run(CFG, CFG, events) && Shows(n.a, ENDED, CALLED, queue[i..], [7])
      invariant Shows(n.b, CALLING, CALLED, [], []) && (i == 3 ==> FIN_A in n.a.wire)
    {
      Transmitted(n.a, n.b.wire, ENDED, CALLED, queue[i..], [7]);
      Snoc(events, AtA(Transmitting));
      events := events + [AtA(Transmitting)];
      n := Run(CFG, CFG, events);
    }
  }

  /** Only the FIN arrives. The other end takes its input to be over, and acknowledges the byte with the FIN. */
  lemma OnlyFinArrives() returns (events: seq<Event>)
    ensures var n := Run(CFG, CFG, events);
      && Shows(n.a, ENDED, CALLED, [], [7]) && Shows(n.b, OPEN, CLOSED, [], []) && ACK_B in n.b.wire
  {
    events := ByteThenFin();
    Stamps();
    Receptions();
    Reactions();
    var n := Run(CFG, CFG, events);
    Arrived(n.b, n.a.wire, FIN_A, CALLING, CALLED, OPEN, CLOSED, PLAIN);
    Snoc(events, AtB(Receiving(FIN_A)));
    events := events + [AtB(Receiving(FIN_A))];
    n := Run(CFG, CFG, events);
    Transmitted(n.b, n.a.wire, OPEN, CLOSED, [ACK_B], []);
    Snoc(events, AtB(Transmitting));
    events := events + [AtB(Transmitting)];
  }

  /** The byte has been acknowledged and given up, the receiver's input is over, and it never received the byte. */
  lemma LosesByte() returns (events: seq<Event>)
    ensures var n := Run(CFG, CFG, events);
      && n.a.accepted == AckedBytes(n.a) == [7] && DATA !in n.a.conn.sender.outstanding
      && NetworkProofs.Received(n.b) == [] && n.b.conn.Inbound().ended
  {
    events := OnlyFinArrives();
    Stamps();
    Receptions();
    Reactions();
    var n := Run(CFG, CFG, events);
    LastArrival(n.a, n.b.wire);
    Snoc(events, AtA(Receiving(ACK_B)));
    events := events + [AtA(Receiving(ACK_B))];
  }

  lemma LastArrival(e: Endpoint, wire: set<Segment>)
    requires ACK_B in wire && Shows(e, ENDED, CALLED, [], [7]) && !ACK_B.header.rst
    requires Receive(CALLED, ACK_B) == CALLED
    requires var s := ReactTo(ENDED, CALLED, ACK_B); s.outstanding == [FIN] && s.nextSeqno == 3
    ensures var e' := Act(e, wire, Receiving(ACK_B));
      e'.accepted == AckedBytes(e') == [7] && DATA !in e'.conn.sender.outstanding
  {
    var s := Act(e, wire, Receiving(ACK_B)).conn.sender;
    assert s.outstanding == [FIN] && s.outstanding[1..] == [];
    assert FIN.Length() == 1 && InFlight(s.outstanding) == FIN.Length() + InFlight(s.outstanding[1..]);
    assert Unacked(s) == 2;
    assert [7][..1] == [7];
  }
}
