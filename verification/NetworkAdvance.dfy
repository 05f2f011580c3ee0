/**
 From every reachable state in which a receiver is open and drained and lacks a byte that was sent, and its peer has not
 used up its retries, time and the network alone can bring the byte: a tick, transmissions and arrivals.
 */
module NetworkAdvance {
  import opened Wrappers
  import opened Wrapping
  import opened Segments
  import opened Reassembly
  import opened ReassemblyProofs
  import opened Sending
  import opened SendingProofs
  import opened Receiving
  import opened ReceivingProofs
  import opened Connections
  import opened ConnectionProofs
  import opened Network
  import opened EndpointRuns
  import opened NetworkProofs
  import opened NetworkProgress

  // ---------- Two more things that every run keeps ----------

  /** A FIN that was seen has not ended the input because bytes are waiting. */
  ghost predicate FinWaits(rc: Receiver)
  {
    rc.finSet && !rc.reassembler.output.ended ==> Unassembled(rc.reassembler.waiting) > 0
  }

  ghost predicate NoReset(segs: seq<Segment>) { forall seg | seg in segs :: !seg.header.rst }

  lemma {:induction false} FillPlain(s: Sender, room: nat)
    requires NoReset(s.outstanding)
    ensures NoReset(FillRoom(s, room).outstanding)
    ensures NoReset(s.segmentsOut) ==> NoReset(FillRoom(s, room).segmentsOut)
    decreases room
  {
    if room > 0 && NextSegment(s, room).Length() > 0 {
      FillPlain(Send(s, NextSegment(s, room)), room - NextSegment(s, room).Length());
    }
  }

  lemma FillWindowPlain(s: Sender)
    requires NoReset(s.outstanding)
    ensures NoReset(FillWindow(s).outstanding)
    ensures NoReset(s.segmentsOut) ==> NoReset(FillWindow(s).segmentsOut)
  {
    if InFlight(s.outstanding) <= EffectiveWindow(s) {
      FillPlain(s, EffectiveWindow(s) - InFlight(s.outstanding));
    }
  }

  lemma {:induction false} DropPlain(s: Sender, ack: nat)
    requires NoReset(s.outstanding)
    ensures NoReset(DropAcked(s, ack).outstanding) && DropAcked(s, ack).segmentsOut == s.segmentsOut
    decreases |s.outstanding|
  {
    if s.outstanding != [] &&
       Unwrap(s.outstanding[0].header.seqno, s.isn, s.nextSeqno) + s.outstanding[0].Length() <= ack {
      DropPlain(DropFirst(s), ack);
    }
  }

  lemma AckPlain(s: Sender, ackno: u32, window: u16)
    requires NoReset(s.outstanding)
    ensures NoReset(AckReceived(s, ackno, window).outstanding)
    ensures NoReset(s.segmentsOut) ==> NoReset(AckReceived(s, ackno, window).segmentsOut)
  {
    var s1, ack := s.(window := window), Unwrap(ackno, s.isn, s.nextSeqno);
    DropPlain(s1, ack);
    FillWindowPlain(Acknowledge(s1, ack));
  }

  lemma AnswerPlain(s: Sender, seg: Segment)
    requires NoReset(s.outstanding)
    ensures NoReset(Answer(s, seg).outstanding)
    ensures NoReset(s.segmentsOut) ==> NoReset(Answer(s, seg).segmentsOut)
  {
    FillWindowPlain(s);
  }

  lemma ReactPlain(s: Sender, rc: Receiver, seg: Segment)
    requires NoReset(s.outstanding)
    ensures NoReset(ReactTo(s, rc, seg).outstanding)
    ensures NoReset(s.segmentsOut) ==> NoReset(ReactTo(s, rc, seg).segmentsOut)
  {
    AckPlain(s, seg.header.ackno, seg.header.win);
    AnswerPlain(if seg.header.ack then AckReceived(s, seg.header.ackno, seg.header.win) else s, seg);
  }

  ghost predicate Settled(e: Endpoint) { FinWaits(e.conn.receiver) && NoReset(e.conn.sender.outstanding) }

  lemma ReceiveFinWaits(rc: Receiver, seg: Segment)
    requires FinWaits(rc)
    ensures FinWaits(Receive(rc, seg))
  {
  }

  lemma ReceivedParts(c: Connection, seg: Segment) returns (c': Connection)
    requires !seg.header.rst
    ensures c' == SegmentReceived(c, seg)
    ensures var rc := Receive(c.receiver, seg); var s := ReactTo(c.sender, rc, seg);
      && c'.receiver == rc && c'.sender == s.(segmentsOut := [])
      && c'.segmentsOut == c.segmentsOut + StampAll(s.segmentsOut, rc)
  {
    c' := SegmentReceived(c, seg);
  }

  lemma ReceivedSettled(e: Endpoint, seg: Segment)
    requires Settled(e)
    ensures Settled(e.(conn := SegmentReceived(e.conn, seg)))
  {
    if !seg.header.rst {
      var c' := ReceivedParts(e.conn, seg);
      ReceiveFinWaits(e.conn.receiver, seg);
      ReactPlain(e.conn.sender, Receive(e.conn.receiver, seg), seg);
    }
  }

  lemma ConnectedSettled(e: Endpoint)
    requires Settled(e)
    ensures Settled(e.(conn := Connect(e.conn)))
  {
    FillWindowPlain(e.conn.sender);
  }

  lemma TickedSettled(e: Endpoint, ms: nat)
    requires Settled(e)
    ensures Settled(e.(conn := Connections.Tick(e.conn, ms)))
  {
  }

  lemma ActSettled(e: Endpoint, peerWire: set<Segment>, act: Action)
    requires Settled(e)
    ensures Settled(Act(e, peerWire, act))
  {
    var s := e.conn.sender;
    match act
    case Connecting => ConnectedSettled(e);
    case Writing(data) => ConnectedSettled(e.(conn := e.conn.(sender := s.(stream := s.stream.Write(data)))));
    case Ending => ConnectedSettled(e.(conn := e.conn.(sender := s.(stream := s.stream.EndInput()))));
    case Reading(len) =>
    case Ticking(ms) => TickedSettled(e, ms);
    case Transmitting =>
    case Receiving(seg) => ReceivedSettled(e, seg);
  }

  /** Everything that is known of two endpoints between events. */
  ghost predicate Sound(n: Net)
  {
    && NetInv(n) && Fair(n.a, n.b) && Fair(n.b, n.a) && Settled(n.a) && Settled(n.b)
  }

  lemma StepSound(n: Net, ev: Event)
    requires Sound(n) && Small(n)
    ensures Sound(Step(n, ev))
  {
    match ev
    case AtA(act) =>
      var a := ActKeeps(n.a, n.b, act);
      ActFair(n.a, n.b, act);
      ActCapacity(n.a, n.b.wire, act);
      ActSettled(n.a, n.b.wire, act);
    case AtB(act) =>
      var b := ActKeeps(n.b, n.a, act);
      ActFair(n.b, n.a, act);
      ActCapacity(n.b, n.a.wire, act);
      ActSettled(n.b, n.a.wire, act);
  }

  lemma {:induction false} RunSound(cfgA: Config, cfgB: Config, events: seq<Event>)
    requires cfgA.recvCapacity < U64 && cfgB.recvCapacity < U64 && Small(Run(cfgA, cfgB, events))
    ensures Sound(Run(cfgA, cfgB, events))
  {
    if events == [] {
      RunKeeps(cfgA, cfgB, events);
      RunFair(cfgA, cfgB, events);
    } else {
      var n, ev := Run(cfgA, cfgB, events[..|events|-1]), events[|events|-1];
      SmallBefore(n, ev);
      RunSound(cfgA, cfgB, events[..|events|-1]);
      StepSound(n, ev);
    }
  }

  // ---------- Going on from a state ----------

  function Then(n: Net, more: seq<Event>): Net
    decreases |more|
  {
    if more == [] then n else Then(Step(n, more[0]), more[1..])
  }

  lemma {:induction false} ThenConcat(n: Net, a: seq<Event>, b: seq<Event>)
    ensures Then(n, a + b) == Then(Then(n, a), b)
    decreases |a|
  {
    if a == [] {
      assert a + b == b;
    } else {
      assert (a + b)[1..] == a[1..] + b;
      ThenConcat(Step(n, a[0]), a[1..], b);
    }
  }

  lemma {:induction false} RunThen(cfgA: Config, cfgB: Config, events: seq<Event>, more: seq<Event>)
    ensures Run(cfgA, cfgB, events + more) == Then(Run(cfgA, cfgB, events), more)
    decreases |more|
  {
    if more == [] {
      assert events + more == events;
    } else {
      var next := events + [more[0]];
      assert next[..|next|-1] == events;
      assert next + more[1..] == events + more;
      RunThen(cfgA, cfgB, next, more[1..]);
    }
  }

  /** Time passes and segments travel; no application does anything. */
  predicate Idle(ev: Event) { ev.act.Ticking? || ev.act.Transmitting? || ev.act.Receiving? }

  ghost predicate AllIdle(more: seq<Event>) { forall ev | ev in more :: Idle(ev) }

  lemma IdleSmall(n: Net, ev: Event)
    requires Small(n) && Idle(ev)
    ensures Small(Step(n, ev))
  {
  }

  lemma {:induction false} ThenSound(n: Net, more: seq<Event>)
    requires Sound(n) && Small(n) && AllIdle(more)
    ensures Sound(Then(n, more)) && Small(Then(n, more))
    decreases |more|
  {
    if more != [] {
      assert Idle(more[0]);
      StepSound(n, more[0]);
      IdleSmall(n, more[0]);
      ThenSound(Step(n, more[0]), more[1..]);
    }
  }

  function EventAt(atA: bool, act: Action): Event { if atA then AtA(act) else AtB(act) }

  function Put(n: Net, atA: bool, e: Endpoint): Net { if atA then n.(a := e) else n.(b := e) }

  lemma StepPut(n: Net, atA: bool, act: Action)
    ensures Then(n, [EventAt(atA, act)]) == Put(n, atA, Act(At(n, atA), At(n, !atA).wire, act))
  {
    assert [EventAt(atA, act)][1..] == [];
  }

  /** What is left of an endpoint when all that it queued is on the wire. */
  function Flushed(e: Endpoint): Endpoint {
    e.(conn := e.conn.(segmentsOut := []), wire := e.wire + (set seg | seg in e.conn.segmentsOut))
  }

  lemma {:induction false} Flush(n: Net, atA: bool) returns (more: seq<Event>)
    ensures AllIdle(more) && Then(n, more) == Put(n, atA, Flushed(At(n, atA)))
    decreases |At(n, atA).conn.segmentsOut|
  {
    var e := At(n, atA);
    if e.conn.segmentsOut == [] {
      more := [];
      assert Flushed(e).wire == e.wire;
      assert Flushed(e) == e;
    } else {
      var ev := EventAt(atA, Transmitting);
      var n1 := Step(n, ev);
      var rest := Flush(n1, atA);
      more := [ev] + rest;
      ThenConcat(n, [ev], rest);
      StepPut(n, atA, Transmitting);
      assert e.conn.segmentsOut == [e.conn.segmentsOut[0]] + e.conn.segmentsOut[1..];
      assert Flushed(At(n1, atA)).wire == Flushed(e).wire;
    }
  }

  // ---------- The front segment goes out again ----------

  /** Enough time for the timer, whatever its timeout. */
  function Long(s: Sender): nat { U32 - 1 - s.timer.elapsed }

  lemma TickParts(c: Connection, S: seq<Byte>) returns (c': Connection)
    requires SenderInv(c.sender, S) && c.sender.outstanding != [] && c.sender.retransmissions < MAX_RETX_ATTEMPTS
    ensures c' == Connections.Tick(c, Long(c.sender))
    ensures c'.receiver == c.receiver && c'.sender.outstanding == c.sender.outstanding
    ensures c'.sender.nextSeqno == c.sender.nextSeqno && c'.sender.stream == c.sender.stream
    ensures c'.sender.isn == c.sender.isn
    ensures Stamp(c.sender.outstanding[0], c.receiver) in c'.segmentsOut
  {
    var s := c.sender;
    TickExpiry(s, Long(s), S);
    var s' := Sending.Tick(s, Long(s));
    StampAllAt(s'.segmentsOut, c.receiver);
    assert StampAll(s'.segmentsOut, c.receiver)[|s.segmentsOut|] == Stamp(s.outstanding[0], c.receiver);
    c' := Connections.Tick(c, Long(s));
  }

  /** After a tick and transmissions at `x`, its front segment is on the wire; nothing else that matters has changed. */
  ghost predicate Resent(x: Endpoint, x': Endpoint)
    requires x.conn.sender.outstanding != []
  {
    var s, s' := x.conn.sender, x'.conn.sender;
    && x'.conn.receiver == x.conn.receiver && x'.accepted == x.accepted
    && s'.outstanding == s.outstanding && s'.nextSeqno == s.nextSeqno && s'.stream == s.stream && s'.isn == s.isn
    && Stamp(s.outstanding[0], x.conn.receiver) in x'.wire
  }

  lemma Resend(n: Net, atA: bool) returns (more: seq<Event>, x': Endpoint)
    requires Sound(n) && At(n, atA).conn.sender.outstanding != []
    requires At(n, atA).conn.sender.retransmissions < MAX_RETX_ATTEMPTS
    ensures AllIdle(more) && Then(n, more) == Put(n, atA, x') && Resent(At(n, atA), x')
  {
    var x := At(n, atA);
    var act := Ticking(Long(x.conn.sender));
    var c' := TickParts(x.conn, x.accepted);
    StepPut(n, atA, act);
    var n1 := Then(n, [EventAt(atA, act)]);
    var rest := Flush(n1, atA);
    more := [EventAt(atA, act)] + rest;
    ThenConcat(n, [EventAt(atA, act)], rest);
    x' := Flushed(At(n1, atA));
  }

  /** An arrival at the endpoint other than `atA`. */
  lemma Arrive(n: Net, atA: bool, seg: Segment) returns (more: seq<Event>, c': Connection)
    requires seg in At(n, atA).wire && !seg.header.rst
    ensures AllIdle(more) && c' == SegmentReceived(At(n, !atA).conn, seg)
    ensures Then(n, more) == Put(n, !atA, At(n, !atA).(conn := c'))
  {
    more := [EventAt(!atA, Receiving(seg))];
    c' := SegmentReceived(At(n, !atA).conn, seg);
    StepPut(n, !atA, Receiving(seg));
  }

  // ---------- If the front segment has the byte ----------

  function Awaited(e: Endpoint): nat { e.conn.receiver.reassembler.waitIndex }

  /** The front segment reaches beyond what the receiver has. */
  ghost predicate Ready(x: Endpoint, y: Endpoint)
  {
    var s := x.conn.sender;
    s.outstanding != [] && Awaited(y) + 1 < Unacked(s) + s.outstanding[0].Length()
  }

  lemma ReadyGoesOn(x: Endpoint, y: Endpoint)
    requires Direction(x, y) && Fair(x, y) && Waits(x, y) && Ready(x, y) && |x.accepted| < HALF
    requires y.conn.receiver.capacity > 0 && Edge(y.conn.receiver.reassembler) < U64
    ensures GoesOn(x, y, x.conn.sender.outstanding[0])
  {
    var s, rc := x.conn.sender, y.conn.receiver;
    FrontBrings(s, x.accepted, Awaited(y));
    HasRoom(x, y);
    Advanced(rc, s.outstanding[0], x.conn.receiver, s.isn, Progressed(x));
  }

  /** The receiver at the other end has room to count, and lacks a byte. */
  ghost predicate Lacks(n: Net, atA: bool)
  {
    var x, y := At(n, atA), At(n, !atA);
    && Sound(n) && Small(n) && Waits(x, y) && x.conn.sender.retransmissions < MAX_RETX_ATTEMPTS
    && 0 < y.conn.receiver.capacity < U64 - HALF
  }

  lemma EdgeFits(n: Net, atA: bool)
    requires Lacks(n, atA)
    ensures Edge(At(n, !atA).conn.receiver.reassembler) < U64
  {
    var x, y := At(n, atA), At(n, !atA);
    assert ReceiveSide(x, y);
  }

  lemma FrontPlain(n: Net, atA: bool, rc: Receiver)
    requires Sound(n) && At(n, atA).conn.sender.outstanding != []
    ensures !Stamp(At(n, atA).conn.sender.outstanding[0], rc).header.rst
  {
    assert Settled(At(n, atA));
  }

  lemma AdvanceReady(n: Net, atA: bool) returns (more: seq<Event>)
    requires Lacks(n, atA) && Ready(At(n, atA), At(n, !atA))
    ensures AllIdle(more) && Awaited(At(Then(n, more), !atA)) > Awaited(At(n, !atA))
  {
    var x, y := At(n, atA), At(n, !atA);
    EdgeFits(n, atA);
    ReadyGoesOn(x, y);
    var resend, x' := Resend(n, atA);
    var seg := Stamp(x.conn.sender.outstanding[0], x.conn.receiver);
    FrontPlain(n, atA, x.conn.receiver);
    var arrive, c' := Arrive(Put(n, atA, x'), atA, seg);
    var c := ReceivedParts(y.conn, seg);
    more := resend + arrive;
    ThenConcat(n, resend, arrive);
  }

  // ---------- If it is old, its arrival is answered ----------

  /** An old segment leaves the receiver as it is. */
  lemma OldReceive(rc: Receiver, seg: Segment, a: nat, isn: u32, p: Progress)
    requires ReceiverInv(rc, isn, p) && FinWaits(rc) && rc.synSet && !rc.reassembler.output.ended
    requires SegAt(seg, a, isn, p) && |p.bytes| < HALF
    requires a + seg.Length() <= rc.reassembler.waitIndex + 1 <= |p.bytes|
    ensures Receive(rc, seg) == rc
  {
    if seg.payload != [] {
      TrueIndex(rc, seg, a, isn, p);
    }
  }

  lemma OldFront(x: Endpoint, y: Endpoint)
    requires Direction(x, y) && Settled(y) && Waits(x, y) && |x.accepted| < HALF
    requires x.conn.sender.outstanding != [] && !Ready(x, y)
    ensures Receive(y.conn.receiver, Stamp(x.conn.sender.outstanding[0], x.conn.receiver)) == y.conn.receiver
  {
    var s := x.conn.sender;
    var p := Progressed(x);
    assert SegAt(s.outstanding[0], Unacked(s), s.isn, p);
    StampBrings(s.outstanding[0], x.conn.receiver, Unacked(s), s.isn, p);
    OldReceive(y.conn.receiver, Stamp(s.outstanding[0], x.conn.receiver), Unacked(s), s.isn, p);
  }

  /** The answer to a segment acknowledges, and is no reset. */
  lemma AnswerSent(c: Connection, seg: Segment) returns (ans: Segment)
    requires !seg.header.rst && seg.Length() > 0 && c.sender.segmentsOut == [] && NoReset(c.sender.outstanding)
    requires Receive(c.receiver, seg).synSet
    ensures var c' := SegmentReceived(c, seg);
      ans in c'.segmentsOut && !ans.header.rst && ans.header.ack && Ackno(c'.receiver) == Some(ans.header.ackno)
  {
    var sent := Answered(c, seg);
    var c' := ReceivedParts(c, seg);
    var rc := Receive(c.receiver, seg);
    var s := ReactTo(c.sender, rc, seg);
    ReactPlain(c.sender, rc, seg);
    StampAllAt(s.segmentsOut, rc);
    assert c'.segmentsOut[|c.segmentsOut|..] == sent == StampAll(s.segmentsOut, rc);
    ans := sent[0];
    assert ans == Stamp(s.segmentsOut[0], rc);
  }

  // ---------- and the answer brings the byte to the front ----------

  lemma {:induction false} DropResets(s: Sender, ack: nat)
    ensures DropAcked(s, ack) == s || DropAcked(s, ack).retransmissions == 0
    decreases |s.outstanding|
  {
    if s.outstanding != [] &&
       Unwrap(s.outstanding[0].header.seqno, s.isn, s.nextSeqno) + s.outstanding[0].Length() <= ack {
      DropResets(DropFirst(s), ack);
    }
  }

  /** An acknowledgement that drops the front segment starts the count of retries again. */
  lemma AckResets(s: Sender, ackno: u32, window: u16, S: seq<Byte>, v: nat)
    requires SenderInv(s, S) && s.nextSeqno < U64 - HALF && s.outstanding != []
    requires Unwrap(ackno, s.isn, s.nextSeqno) == v <= s.nextSeqno
    requires Unacked(s) + s.outstanding[0].Length() <= v
    ensures AckReceived(s, ackno, window).retransmissions == 0
  {
    var s1 := s.(window := window);
    WindowInv(s, window, S);
    var k := AcknowledgeExact(s1, v, S);
    FirstEnd(s1);
    DropResets(s1, v);
    var segs := FillWindowSends(Acknowledge(s1, v), S);
  }

  /** What follows an acknowledgement only adds at the end. */
  lemma AnswerFront(s: Sender, seg: Segment, S: seq<Byte>)
    requires SenderInv(s, S)
    ensures var s' := Answer(s, seg);
      && s.outstanding <= s'.outstanding && Unacked(s') == Unacked(s) && s'.retransmissions == s.retransmissions
  {
    FillWindowInv(s, S);
    var segs := FillWindowSends(s, S);
  }

  lemma ReactFront(s: Sender, rc: Receiver, seg: Segment, S: seq<Byte>, v: nat)
    requires SenderInv(s, S) && s.nextSeqno < U64 - HALF && s.outstanding != [] && seg.header.ack
    requires Unwrap(seg.header.ackno, s.isn, s.nextSeqno) == v < s.nextSeqno
    requires Unacked(s) + s.outstanding[0].Length() <= v
    ensures var s' := ReactTo(s, rc, seg);
      && s'.outstanding != [] && v < Unacked(s') + s'.outstanding[0].Length() && s'.retransmissions == 0
  {
    var s1 := AckReceived(s, seg.header.ackno, seg.header.win);
    var k, segs := AckReceivedExact(s, seg.header.ackno, seg.header.win, S);
    FrontBeyond(s, seg.header.ackno, seg.header.win, S, v);
    AckResets(s, seg.header.ackno, seg.header.win, S, v);
    AnswerFront(s1, seg, S);
  }

  /** The acknowledgement of `y` arrives at `x`: now the front segment has the byte. */
  lemma AckMakesReady(x: Endpoint, y: Endpoint, ans: Segment)
    requires SenderInv(x.conn.sender, x.accepted) && x.conn.sender.nextSeqno < U64 - HALF
    requires x.conn.sender.outstanding != [] && !Ready(x, y) && ans.header.ack && !ans.header.rst
    requires Unwrap(ans.header.ackno, x.conn.sender.isn, x.conn.sender.nextSeqno) == Awaited(y) + 1
    requires Awaited(y) + 1 < x.conn.sender.nextSeqno
    ensures var c' := SegmentReceived(x.conn, ans); Ready(x.(conn := c'), y) && c'.sender.retransmissions == 0
  {
    var c := ReceivedParts(x.conn, ans);
    ReactFront(x.conn.sender, Receive(x.conn.receiver, ans), ans, x.accepted, Awaited(y) + 1);
  }

  lemma ReactReads(s: Sender, rc: Receiver, seg: Segment, S: seq<Byte>)
    requires SenderInv(s, S) && s.nextSeqno < U64 - HALF
    ensures ReactTo(s, rc, seg).stream.read >= s.stream.read
  {
    AckReceivedAdvances(s, seg.header.ackno, seg.header.win, S);
    var k, segs := AckReceivedExact(s, seg.header.ackno, seg.header.win, S);
    var s1 := if seg.header.ack then AckReceived(s, seg.header.ackno, seg.header.win) else s;
    FillWindowAdvances(s1, S);
  }

  // ---------- Together ----------

  /** The front segment is sent again although it is old, and its arrival answered. */
  lemma AnswerOld(n: Net, atA: bool) returns (more: seq<Event>, x': Endpoint, y': Endpoint, ans: Segment)
    requires Lacks(n, atA) && At(n, atA).conn.sender.outstanding != [] && !Ready(At(n, atA), At(n, !atA))
    ensures AllIdle(more) && Then(n, more) == Put(Put(n, atA, x'), !atA, y') && Resent(At(n, atA), x')
    ensures y'.conn.receiver == At(n, !atA).conn.receiver
    ensures ans in y'.wire && ans.header.ack && !ans.header.rst && Ackno(y'.conn.receiver) == Some(ans.header.ackno)
  {
    var x, y := At(n, atA), At(n, !atA);
    var resend;
    resend, x' := Resend(n, atA);
    var seg := Stamp(x.conn.sender.outstanding[0], x.conn.receiver);
    FrontPlain(n, atA, x.conn.receiver);
    OldFront(x, y);
    var n1 := Put(n, atA, x');
    var arrive, c' := Arrive(n1, atA, seg);
    var c := ReceivedParts(y.conn, seg);
    ans := AnswerSent(y.conn, seg);
    var n2 := Put(n1, !atA, y.(conn := c'));
    var flush := Flush(n2, !atA);
    y' := Flushed(At(n2, !atA));
    more := resend + arrive + flush;
    ThenConcat(n, resend, arrive);
    ThenConcat(n, resend + arrive, flush);
  }

  lemma MakeReady(n: Net, atA: bool) returns (more: seq<Event>)
    requires Lacks(n, atA) && At(n, atA).conn.sender.outstanding != [] && !Ready(At(n, atA), At(n, !atA))
    ensures var n' := Then(n, more);
      && AllIdle(more) && Lacks(n', atA) && Ready(At(n', atA), At(n', !atA))
      && Awaited(At(n', !atA)) == Awaited(At(n, !atA))
  {
    var answer, x', y', ans := AnswerOld(n, atA);
    var n1 := Then(n, answer);
    ThenSound(n, answer);
    var arrive, c' := Arrive(n1, !atA, ans);
    more := answer + arrive;
    ThenConcat(n, answer, arrive);
    ThenSound(n, more);
    var ackno := AckNumberExact(x', y');
    AckMakesReady(x', y', ans);
    var c := ReceivedParts(x'.conn, ans);
    ReactReads(x'.conn.sender, Receive(x'.conn.receiver, ans), ans, x'.accepted);
  }

  lemma Outstanding(x: Endpoint, y: Endpoint)
    requires Direction(x, y) && Waits(x, y)
    ensures x.conn.sender.outstanding != []
  {
  }

  lemma Advance(n: Net, atA: bool) returns (more: seq<Event>)
    requires Lacks(n, atA)
    ensures AllIdle(more) && Awaited(At(Then(n, more), !atA)) > Awaited(At(n, !atA))
  {
    var x, y := At(n, atA), At(n, !atA);
    Outstanding(x, y);
    if Ready(x, y) {
      more := AdvanceReady(n, atA);
    } else {
      var first := MakeReady(n, atA);
      var rest := AdvanceReady(Then(n, first), atA);
      more := first + rest;
      ThenConcat(n, first, rest);
    }
  }

  /**
   From every reachable state: if a receiver is open and drained and lacks a byte that was sent, and its peer has
   counted fewer than eight retries, there are events, none of them an application's, after which the receiver has
   advanced.
   */
  lemma CanAdvance(cfgA: Config, cfgB: Config, events: seq<Event>, atA: bool) returns (more: seq<Event>)
    requires cfgA.recvCapacity < U64 - HALF && cfgB.recvCapacity < U64 - HALF
    requires ConfigAt(cfgA, cfgB, !atA).recvCapacity > 0 && Small(Run(cfgA, cfgB, events))
    requires var n := Run(cfgA, cfgB, events);
      Waits(At(n, atA), At(n, !atA)) && At(n, atA).conn.sender.retransmissions < MAX_RETX_ATTEMPTS
    ensures AllIdle(more)
    ensures Awaited(At(Run(cfgA, cfgB, events + more), !atA)) > Awaited(At(Run(cfgA, cfgB, events), !atA))
  {
    RunSound(cfgA, cfgB, events);
    RunFair(cfgA, cfgB, events);
    more := Advance(Run(cfgA, cfgB, events), atA);
    RunThen(cfgA, cfgB, events, more);
  }
}
