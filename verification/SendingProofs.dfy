/**
 The bookkeeping of the sender. `S` is every byte the outgoing stream has accepted so far.
 */
module SendingProofs {
  import opened Wrapping
  import opened Segments
  import opened Sending

  function One(b: bool): nat { if b then 1 else 0 }

  /** All that has been sent for the first time: the SYN, a prefix of the stream, and the FIN. */
  datatype Progress = Progress(syn: bool, bytes: seq<Byte>, fin: bool)

  function Sent(s: Sender, S: seq<Byte>): Progress
    requires s.stream.read <= |S|
  {
    Progress(s.synSent, S[..s.stream.read], s.finSent)
  }

  // ---------- Segments in absolute sequence space ----------

  /** Absolute number 0 is the SYN, byte i has number i + 1. */
  function FirstByte(a: nat): nat { if a == 0 then 0 else a - 1 }

  /** `seg` occupies [a, a + length) and carries the bytes that belong there, out of what has been sent. */
  ghost predicate SegAt(seg: Segment, a: nat, isn: u32, p: Progress)
  {
    && seg.header.seqno == Wrap(a, isn)
    && (seg.header.syn ==> p.syn && a == 0)
    && (seg.payload != [] ==>
         && (a == 0 ==> seg.header.syn)
         && FirstByte(a) + |seg.payload| <= |p.bytes|
         && seg.payload == p.bytes[FirstByte(a)..FirstByte(a) + |seg.payload|])
    && (seg.header.fin ==> p.fin && a + seg.Length() == |p.bytes| + 2)
  }

  /** Segments that follow each other without gap or overlap from `a` to `end`. */
  ghost predicate Chain(segs: seq<Segment>, a: nat, end: nat, isn: u32, p: Progress)
  {
    if segs == [] then a == end
    else
      && SegAt(segs[0], a, isn, p)
      && segs[0].Length() > 0
      && (segs[0].header.syn <==> a == 0) && !segs[0].header.ack
      && Chain(segs[1..], a + segs[0].Length(), end, isn, p)
  }

  /** Sent bytes may only grow while no FIN has been sent. */
  ghost predicate Grows(p: Progress, p': Progress)
  {
    (p.syn ==> p'.syn) && p.bytes <= p'.bytes && (p.fin ==> p'.fin && p.bytes == p'.bytes)
  }

  lemma SegAtGrows(seg: Segment, a: nat, isn: u32, p: Progress, p': Progress)
    requires SegAt(seg, a, isn, p) && Grows(p, p')
    ensures SegAt(seg, a, isn, p')
  {
  }

  lemma {:induction false} ChainGrows(segs: seq<Segment>, a: nat, end: nat, isn: u32, p: Progress, p': Progress)
    requires Chain(segs, a, end, isn, p) && Grows(p, p')
    ensures Chain(segs, a, end, isn, p')
  {
    if segs != [] {
      SegAtGrows(segs[0], a, isn, p, p');
      ChainGrows(segs[1..], a + segs[0].Length(), end, isn, p, p');
    }
  }

  lemma {:induction false} ChainAppend(segs: seq<Segment>, a: nat, end: nat, seg: Segment, isn: u32, p: Progress)
    requires Chain(segs, a, end, isn, p)
    requires SegAt(seg, end, isn, p) && seg.Length() > 0 && (seg.header.syn <==> end == 0) && !seg.header.ack
    ensures Chain(segs + [seg], a, end + seg.Length(), isn, p)
  {
    if segs == [] {
      assert segs + [seg] == [seg];
    } else {
      assert (segs + [seg])[1..] == segs[1..] + [seg];
      ChainAppend(segs[1..], a + segs[0].Length(), end, seg, isn, p);
    }
  }

  lemma {:induction false} InFlightAppend(segs: seq<Segment>, more: seq<Segment>)
    ensures InFlight(segs + more) == InFlight(segs) + InFlight(more)
  {
    if segs == [] {
      assert segs + more == more;
    } else {
      assert (segs + more)[1..] == segs[1..] + more;
      InFlightAppend(segs[1..], more);
    }
  }

  lemma {:induction false} ChainLength(segs: seq<Segment>, a: nat, end: nat, isn: u32, p: Progress)
    requires Chain(segs, a, end, isn, p)
    ensures a + InFlight(segs) == end && (segs != [] ==> a < end)
  {
    if segs != [] {
      ChainLength(segs[1..], a + segs[0].Length(), end, isn, p);
    }
  }

  // ---------- What holds between calls ----------

  ghost predicate StreamInv(s: Sender, S: seq<Byte>)
  {
    && s.stream.Valid() && s.stream.written == |S|
    && s.stream.buf == S[s.stream.read..]
    && s.nextSeqno == One(s.synSent) + s.stream.read + One(s.finSent)
    && (s.finSent ==> s.synSent && s.stream.Eof())
    && (!s.synSent ==> s.stream.read == 0)
  }

  /** The lowest sequence number not yet acknowledged. */
  function Unacked(s: Sender): int { s.nextSeqno - InFlight(s.outstanding) }

  ghost predicate ChainInv(s: Sender, S: seq<Byte>)
    requires StreamInv(s, S)
  {
    && 0 <= Unacked(s)
    && Chain(s.outstanding, Unacked(s), s.nextSeqno, s.isn, Sent(s, S))
    && InFlight(s.outstanding) < U16
  }

  /** The timeout after `count` doublings in 32 bits. */
  function BackedOff(initial: u16, count: nat): u32 {
    if count == 0 then initial else BackedOff(initial, count - 1) * 2 % U32
  }

  /** The timer runs exactly while something is outstanding, for the backed-off timeout. */
  ghost predicate TimerInv(s: Sender)
  {
    && (s.timer.active <==> s.outstanding != [])
    && !s.timer.expired
    && (s.timer.active ==> s.timer.timeout == s.rto)
    && s.rto == BackedOff(s.initialRto, s.retransmissions)
  }

  ghost predicate SenderInv(s: Sender, S: seq<Byte>)
  {
    StreamInv(s, S) && ChainInv(s, S) && TimerInv(s)
  }

  lemma NewSenderInv(capacity: nat, rto: u16, isn: u32)
    ensures SenderInv(NewSender(capacity, rto, isn), [])
  {
  }

  // ---------- Filling the window ----------

  function Payloads(segs: seq<Segment>): seq<Byte> {
    if segs == [] then [] else segs[0].payload + Payloads(segs[1..])
  }

  lemma NextSegmentAt(s: Sender, room: nat, S: seq<Byte>)
    requires StreamInv(s, S) && room > 0
    ensures var seg := NextSegment(s, room); var s' := Send(s, seg);
      && StreamInv(s', S)
      && Grows(Sent(s, S), Sent(s', S))
      && Sent(s', S).bytes == Sent(s, S).bytes + seg.payload
      && SegAt(seg, s.nextSeqno, s.isn, Sent(s', S))
      && (seg.header.syn <==> s.nextSeqno == 0) && !seg.header.ack
  {
    var seg := NextSegment(s, room);
    var n, k := s.stream.read, |seg.payload|;
    assert seg.payload == s.stream.buf[..k] == S[n..n + k];
    assert S[..n] + S[n..n + k] == S[..n + k];
    assert S[n..][k..] == S[n + k..];
  }

  /** The chain grows by a segment that starts where it ended. */
  lemma SendChain(s: Sender, seg: Segment, S: seq<Byte>)
    requires StreamInv(s, S) && ChainInv(s, S)
    requires var s' := Send(s, seg);
      && StreamInv(s', S) && Grows(Sent(s, S), Sent(s', S))
      && SegAt(seg, s.nextSeqno, s.isn, Sent(s', S))
    requires seg.Length() > 0 && (seg.header.syn <==> s.nextSeqno == 0) && !seg.header.ack
    requires InFlight(s.outstanding) + seg.Length() < U16
    ensures ChainInv(Send(s, seg), S)
    ensures Unacked(Send(s, seg)) == Unacked(s)
    ensures InFlight(Send(s, seg).outstanding) == InFlight(s.outstanding) + seg.Length()
  {
    var s' := Send(s, seg);
    var a := Unacked(s);
    ChainGrows(s.outstanding, a, s.nextSeqno, s.isn, Sent(s, S), Sent(s', S));
    ChainAppend(s.outstanding, a, s.nextSeqno, seg, s.isn, Sent(s', S));
    InFlightAppend(s.outstanding, [seg]);
    assert InFlight([seg]) == seg.Length();
  }

  lemma SendInv(s: Sender, room: nat, S: seq<Byte>) returns (s': Sender)
    requires SenderInv(s, S) && room > 0 && NextSegment(s, room).Length() > 0
    requires InFlight(s.outstanding) + room < U16
    ensures var seg := NextSegment(s, room);
      && s' == Send(s, seg) && SenderInv(s', S)
      && Unacked(s') == Unacked(s)
      && InFlight(s'.outstanding) == InFlight(s.outstanding) + seg.Length()
  {
    NextSegmentAt(s, room, S);
    SendChain(s, NextSegment(s, room), S);
    s' := Send(s, NextSegment(s, room));
  }

  /** Nothing more can be sent: no SYN, no byte and no due FIN is left. */
  ghost predicate Exhausted(s: Sender)
  {
    s.synSent && s.stream.buf == [] && (s.stream.ended ==> s.finSent)
  }

  /** What sending `segs` one after the other changes. */
  ghost predicate SentSegments(s: Sender, s': Sender, segs: seq<Segment>, S: seq<Byte>)
  {
    && s'.segmentsOut == s.segmentsOut + segs
    && s'.outstanding == s.outstanding + segs
    && s.stream.read <= s'.stream.read <= |S|
    && Payloads(segs) == S[s.stream.read..s'.stream.read]
    && (forall seg | seg in segs :: |seg.payload| <= MAX_PAYLOAD_SIZE)
    && (s.synSent ==> s'.synSent) && (s.finSent ==> s'.finSent)
    && s' == s.(segmentsOut := s'.segmentsOut, outstanding := s'.outstanding, nextSeqno := s'.nextSeqno,
                stream := s.stream.(buf := s'.stream.buf, read := s'.stream.read),
                synSent := s'.synSent, finSent := s'.finSent, timer := s'.timer)
  }

  lemma SentSegmentsCons(s: Sender, s1: Sender, s': Sender, seg: Segment, segs: seq<Segment>, S: seq<Byte>)
    requires SentSegments(s, s1, [seg], S) && SentSegments(s1, s', segs, S)
    ensures SentSegments(s, s', [seg] + segs, S)
  {
    assert ([seg] + segs)[1..] == segs && Payloads([seg]) == seg.payload;
    assert s.segmentsOut + [seg] + segs == s.segmentsOut + ([seg] + segs);
    assert s.outstanding + [seg] + segs == s.outstanding + ([seg] + segs);
  }

  lemma SendOne(s: Sender, seg: Segment, S: seq<Byte>)
    requires StreamInv(s, S) && |seg.payload| <= |s.stream.buf| && |seg.payload| <= MAX_PAYLOAD_SIZE
    requires seg.payload == s.stream.buf[..|seg.payload|]
    ensures SentSegments(s, Send(s, seg), [seg], S)
  {
    var n := s.stream.read;
    assert S[n..][..|seg.payload|] == S[n..n + |seg.payload|];
    assert Payloads([seg]) == seg.payload + Payloads([]);
  }

  lemma NothingLeft(s: Sender, room: nat, S: seq<Byte>)
    requires StreamInv(s, S) && room > 0 && NextSegment(s, room).Length() == 0
    ensures Exhausted(s)
  {
  }

  lemma {:induction false} FillRoomInv(s: Sender, room: nat, S: seq<Byte>) returns (s': Sender)
    requires SenderInv(s, S) && InFlight(s.outstanding) + room < U16
    ensures s' == FillRoom(s, room)
    ensures SenderInv(s', S) && Unacked(s') == Unacked(s)
    ensures InFlight(s'.outstanding) <= InFlight(s.outstanding) + room
    ensures InFlight(s'.outstanding) == InFlight(s.outstanding) + room || Exhausted(s')
    decreases room
  {
    s' := s;
    if room > 0 {
      var seg := NextSegment(s, room);
      if seg.Length() == 0 {
        NothingLeft(s, room, S);
      } else {
        var s1 := SendInv(s, room, S);
        s' := FillRoomInv(s1, room - seg.Length(), S);
      }
    }
  }

  lemma SendNext(s: Sender, room: nat, S: seq<Byte>) returns (s': Sender)
    requires StreamInv(s, S) && room > 0
    ensures s' == Send(s, NextSegment(s, room)) && StreamInv(s', S)
    ensures SentSegments(s, s', [NextSegment(s, room)], S)
  {
    s' := Send(s, NextSegment(s, room));
    NextSegmentAt(s, room, S);
    SendOne(s, NextSegment(s, room), S);
  }

  lemma {:induction false} FillRoomSends(s: Sender, room: nat, S: seq<Byte>) returns (segs: seq<Segment>)
    requires StreamInv(s, S)
    ensures SentSegments(s, FillRoom(s, room), segs, S)
    decreases room
  {
    segs := [];
    if room > 0 {
      var seg := NextSegment(s, room);
      if seg.Length() > 0 {
        var s1 := SendNext(s, room, S);
        var rest := FillRoomSends(s1, room - seg.Length(), S);
        segs := [seg] + rest;
        SentSegmentsCons(s, s1, FillRoom(s1, room - seg.Length()), seg, rest, S);
      }
    }
  }

  /**
   `FillWindow` keeps the bookkeeping, never raises what is in flight above the window (1 if it is closed), and
   stops only at a full window or with nothing left to send.
   */
  lemma FillWindowInv(s: Sender, S: seq<Byte>)
    requires SenderInv(s, S)
    ensures var s' := FillWindow(s);
      && SenderInv(s', S) && Unacked(s') == Unacked(s)
      && InFlight(s'.outstanding) <= Max(InFlight(s.outstanding), EffectiveWindow(s))
      && (InFlight(s'.outstanding) >= EffectiveWindow(s) || Exhausted(s'))
  {
    var out := InFlight(s.outstanding);
    if out <= EffectiveWindow(s) {
      var s' := FillRoomInv(s, EffectiveWindow(s) - out, S);
    }
  }

  /** `FillWindow` sends each byte it takes from the stream once and in order, and changes nothing else. */
  lemma FillWindowSends(s: Sender, S: seq<Byte>) returns (segs: seq<Segment>)
    requires StreamInv(s, S)
    ensures SentSegments(s, FillWindow(s), segs, S)
  {
    var out := InFlight(s.outstanding);
    if out <= EffectiveWindow(s) {
      segs := FillRoomSends(s, EffectiveWindow(s) - out, S);
    } else {
      segs := [];
    }
  }

  // ---------- Acknowledgements ----------

  /** The wrapped number of an outstanding segment still tells its absolute one. */
  lemma FirstUnwraps(s: Sender, S: seq<Byte>)
    requires StreamInv(s, S) && ChainInv(s, S) && s.outstanding != [] && s.nextSeqno < U64 - HALF
    ensures Unwrap(s.outstanding[0].header.seqno, s.isn, s.nextSeqno) == Unacked(s)
  {
    UnwrapWrap(Unacked(s), s.isn, s.nextSeqno);
  }

  lemma DropFirstInv(s: Sender, S: seq<Byte>)
    requires SenderInv(s, S) && s.outstanding != []
    ensures var s' := DropFirst(s);
      && StreamInv(s', S) && ChainInv(s', S)
      && Unacked(s') == Unacked(s) + s.outstanding[0].Length()
      && SenderInv(StopIfIdle(s'), S)
  {
  }

  /** All but the activity of the timer, which is settled after the last segment has been dropped. */
  ghost predicate Dropping(s: Sender, S: seq<Byte>)
  {
    StreamInv(s, S) && ChainInv(s, S) && TimerInv(StopIfIdle(s))
  }

  /** One past the last sequence number of the outstanding segment `i`. */
  function SegmentEnd(s: Sender, i: nat): int
    requires i < |s.outstanding|
  {
    Unacked(s) + InFlight(s.outstanding[..i + 1])
  }

  lemma FirstEnd(s: Sender)
    requires s.outstanding != []
    ensures SegmentEnd(s, 0) == Unacked(s) + s.outstanding[0].Length()
  {
    var first := s.outstanding[..0 + 1];
    assert first[1..] == [];
    assert InFlight(first) == first[0].Length() + InFlight(first[1..]);
  }

  /** `k` separates the outstanding segments that end at or before `ack` from those that do not. */
  ghost predicate Separates(s: Sender, k: nat, ack: nat)
  {
    && k <= |s.outstanding|
    && forall i | 0 <= i < |s.outstanding| :: i < k <==> SegmentEnd(s, i) <= ack
  }

  lemma {:induction false} InFlightMonotone(segs: seq<Segment>, i: nat, j: nat)
    requires i <= j <= |segs|
    ensures InFlight(segs[..i]) <= InFlight(segs[..j])
  {
    assert segs[..j] == segs[..i] + segs[i..j];
    InFlightAppend(segs[..i], segs[i..j]);
  }

  lemma SeparatesCons(s: Sender, s': Sender, k: nat, ack: nat)
    requires s.outstanding != [] && s'.outstanding == s.outstanding[1..] && s'.nextSeqno == s.nextSeqno
    requires Separates(s', k, ack) && SegmentEnd(s, 0) <= ack
    ensures Separates(s, k + 1, ack)
  {
    forall i | 1 <= i < |s.outstanding| ensures SegmentEnd(s, i) == SegmentEnd(s', i - 1) {
      assert s.outstanding[..i + 1][1..] == s'.outstanding[..i];
    }
  }

  lemma SeparatesNone(s: Sender, ack: nat)
    requires s.outstanding != [] ==> SegmentEnd(s, 0) > ack
    ensures Separates(s, 0, ack)
  {
    forall i | 0 <= i < |s.outstanding| ensures SegmentEnd(s, i) > ack {
      InFlightMonotone(s.outstanding, 1, i + 1);
    }
  }

  /** Comparing wrapped numbers drops exactly the segments that lie wholly below `ack`. */
  lemma {:induction false} DropAckedExact(s: Sender, ack: nat, S: seq<Byte>) returns (k: nat)
    requires Dropping(s, S) && ack <= s.nextSeqno < U64 - HALF
    ensures var s' := DropAcked(s, ack);
      && Dropping(s', S)
      && Separates(s, k, ack) && s'.outstanding == s.outstanding[k..]
      && Unacked(s) <= Unacked(s') <= Max(Unacked(s), ack)
      && s' == s.(outstanding := s'.outstanding, rto := s'.rto, timer := s'.timer,
                  retransmissions := s'.retransmissions)
    decreases |s.outstanding|
  {
    k := 0;
    if s.outstanding != [] {
      FirstUnwraps(s, S);
      FirstEnd(s);
      if SegmentEnd(s, 0) <= ack {
        var s1 := DropFirst(s);
        DropFirstInv(s, S);
        k := DropAckedExact(s1, ack, S);
        SeparatesCons(s, s1, k, ack);
        k := k + 1;
        return;
      }
    }
    SeparatesNone(s, ack);
  }

  lemma AcknowledgeExact(s: Sender, ack: nat, S: seq<Byte>) returns (k: nat)
    requires SenderInv(s, S) && ack <= s.nextSeqno < U64 - HALF
    ensures var s' := Acknowledge(s, ack);
      && SenderInv(s', S)
      && Separates(s, k, ack) && s'.outstanding == s.outstanding[k..]
      && Unacked(s) <= Unacked(s') <= Max(Unacked(s), ack)
      && s' == s.(outstanding := s'.outstanding, rto := s'.rto, timer := s'.timer,
                  retransmissions := s'.retransmissions)
  {
    k := DropAckedExact(s, ack, S);
  }

  lemma Refill(s: Sender, S: seq<Byte>) returns (s': Sender, segs: seq<Segment>)
    requires SenderInv(s, S)
    ensures s' == FillWindow(s) && SenderInv(s', S) && Unacked(s') == Unacked(s) && s'.window == s.window
    ensures s'.outstanding == s.outstanding + segs
    ensures InFlight(s'.outstanding) <= Max(InFlight(s.outstanding), EffectiveWindow(s))
  {
    s' := FillWindow(s);
    FillWindowInv(s, S);
    segs := FillWindowSends(s, S);
  }

  lemma WindowInv(s: Sender, window: u16, S: seq<Byte>)
    requires SenderInv(s, S)
    ensures SenderInv(s.(window := window), S) && Unacked(s.(window := window)) == Unacked(s)
  {
  }

  lemma SeparatesSame(s: Sender, s1: Sender, k: nat, ack: nat)
    requires s1.outstanding == s.outstanding && s1.nextSeqno == s.nextSeqno && Separates(s1, k, ack)
    ensures Separates(s, k, ack)
  {
    assert forall i | 0 <= i < |s.outstanding| :: SegmentEnd(s1, i) == SegmentEnd(s, i);
  }

  lemma AcceptableAck(s: Sender, ack: nat, window: u16, S: seq<Byte>) returns (k: nat, segs: seq<Segment>)
    requires SenderInv(s, S) && ack <= s.nextSeqno < U64 - HALF
    ensures var s' := FillWindow(Acknowledge(s.(window := window), ack));
      && SenderInv(s', S)
      && Separates(s, k, ack)
      && s'.outstanding == s.outstanding[k..] + segs
      && Unacked(s) <= Unacked(s') <= Max(Unacked(s), ack)
      && Unacked(s') == Unacked(s) + InFlight(s.outstanding[..k])
      && InFlight(s'.outstanding) <= Max(InFlight(s.outstanding), EffectiveWindow(s')) && s'.window == window
  {
    var s1 := s.(window := window);
    WindowInv(s, window, S);
    k := AcknowledgeExact(s1, ack, S);
    var s';
    s', segs := Refill(Acknowledge(s1, ack), S);
    SeparatesSame(s, s1, k, ack);
    assert s.outstanding == s.outstanding[..k] + s.outstanding[k..];
    InFlightAppend(s.outstanding[..k], s.outstanding[k..]);
  }

  lemma AckAt(s: Sender, ack: nat, window: u16, S: seq<Byte>) returns (s': Sender, k: nat, segs: seq<Segment>)
    requires SenderInv(s, S) && s.nextSeqno < U64 - HALF
    ensures s' == if ack > s.nextSeqno then s.(window := window) else FillWindow(Acknowledge(s.(window := window), ack))
    ensures SenderInv(s', S) && s'.window == window
    ensures InFlight(s'.outstanding) <= Max(InFlight(s.outstanding), EffectiveWindow(s'))
    ensures ack <= s.nextSeqno ==>
      && Separates(s, k, ack)
      && s'.outstanding == s.outstanding[k..] + segs
      && Unacked(s) <= Unacked(s') <= Max(Unacked(s), ack)
      && Unacked(s') == Unacked(s) + InFlight(s.outstanding[..k])
  {
    s', k, segs := s.(window := window), 0, [];
    if ack <= s.nextSeqno {
      k, segs := AcceptableAck(s, ack, window, S);
      s' := FillWindow(Acknowledge(s.(window := window), ack));
    }
  }

  /** An acceptable acknowledgement drops exactly the segments wholly below it; one beyond `nextSeqno` drops none. */
  lemma AckReceivedExact(s: Sender, ackno: u32, window: u16, S: seq<Byte>) returns (k: nat, segs: seq<Segment>)
    requires SenderInv(s, S) && s.nextSeqno < U64 - HALF
    ensures var s' := AckReceived(s, ackno, window); var ack := Unwrap(ackno, s.isn, s.nextSeqno);
      && SenderInv(s', S) && s'.window == window
      && InFlight(s'.outstanding) <= Max(InFlight(s.outstanding), EffectiveWindow(s'))
      && if ack > s.nextSeqno then s' == s.(window := window) else
         && Separates(s, k, ack)
         && s'.outstanding == s.outstanding[k..] + segs
         && Unacked(s) <= Unacked(s') <= Max(Unacked(s), ack)
         && Unacked(s') == Unacked(s) + InFlight(s.outstanding[..k])
  {
    var s';
    s', k, segs := AckAt(s, Unwrap(ackno, s.isn, s.nextSeqno), window, S);
    assert s' == AckReceived(s, ackno, window);
  }

  // ---------- Time ----------

  lemma TickInv(s: Sender, ms: nat, S: seq<Byte>)
    requires SenderInv(s, S)
    ensures SenderInv(Tick(s, ms), S) && Unacked(Tick(s, ms)) == Unacked(s)
  {
  }

  /** An expiry resends the oldest outstanding segment and backs off, except when the window is closed. */
  lemma TickExpiry(s: Sender, ms: nat, S: seq<Byte>)
    requires SenderInv(s, S)
    ensures var s' := Tick(s, ms);
      if s.timer.active && (s.timer.elapsed + ms % U32) % U32 >= s.timer.timeout then
        && s'.segmentsOut == s.segmentsOut + [s.outstanding[0]]
        && s'.timer == Started(s'.rto)
        && s'.retransmissions == s.retransmissions + One(s.window > 0)
      else
        s'.segmentsOut == s.segmentsOut && s'.retransmissions == s.retransmissions && s'.rto == s.rto
  {
  }

  lemma DoubleMod(x: nat)
    ensures (x % U32) * 2 % U32 == (2 * x) % U32
  {
  }

  /** The timeout is the initial one times 2^count, in 32 bits; */
  lemma {:induction false} BackedOffPower(initial: u16, count: nat)
    ensures BackedOff(initial, count) == initial * Pow2(count) % U32
  {
    if count > 0 {
      BackedOffPower(initial, count - 1);
      DoubleMod(initial * Pow2(count - 1));
      Pow2Doubles(initial, count);
    }
  }

  lemma MulMonotone(x: nat, y: nat, z: nat)
    requires y <= z
    ensures x * y <= x * z
  {
  }

  lemma Pow2Doubles(initial: nat, count: nat)
    requires count > 0
    ensures initial * Pow2(count) == 2 * (initial * Pow2(count - 1))
  {
  }

  /** and up to 16 doublings of a 16-bit initial timeout never wrap. */
  lemma {:induction false} BackedOffExact(initial: u16, count: nat)
    requires count <= 16
    ensures BackedOff(initial, count) == initial * Pow2(count)
  {
    if count > 0 {
      BackedOffExact(initial, count - 1);
      Pow2Monotone(count - 1, 15);
      assert Pow2(15) == 32768;
      MulMonotone(initial, Pow2(count - 1), 32768);
      Pow2Doubles(initial, count);
    }
  }

  // ---------- Everything that has been sent ----------

  ghost predicate Emitted(seg: Segment, isn: u32, p: Progress)
  {
    exists a: nat :: a <= |p.bytes| + 2 && SegAt(seg, a, isn, p)
  }

  lemma EmittedGrows(seg: Segment, isn: u32, p: Progress, p': Progress)
    requires Emitted(seg, isn, p) && Grows(p, p')
    ensures Emitted(seg, isn, p')
  {
    var a: nat :| a <= |p.bytes| + 2 && SegAt(seg, a, isn, p);
    SegAtGrows(seg, a, isn, p, p');
  }

  lemma {:induction false} ChainEmitted(segs: seq<Segment>, a: nat, end: nat, isn: u32, p: Progress)
    requires Chain(segs, a, end, isn, p) && end <= |p.bytes| + 2
    ensures forall seg | seg in segs :: Emitted(seg, isn, p) && !seg.header.ack
  {
    if segs != [] {
      ChainLength(segs, a, end, isn, p);
      ChainEmitted(segs[1..], a + segs[0].Length(), end, isn, p);
    }
  }

  /** What a step may do to the sender, as far as the network can tell. */
  ghost predicate Advances(s: Sender, s': Sender, S: seq<Byte>)
  {
    && s.stream.read <= |S| && s'.stream.read <= |S|
    && s'.isn == s.isn
    && Grows(Sent(s, S), Sent(s', S))
    && |s.segmentsOut| <= |s'.segmentsOut|
    && s'.segmentsOut[..|s.segmentsOut|] == s.segmentsOut
    && forall i | |s.segmentsOut| <= i < |s'.segmentsOut| ::
         Emitted(s'.segmentsOut[i], s.isn, Sent(s', S)) && !s'.segmentsOut[i].header.ack
  }

  lemma FillWindowAdvances(s: Sender, S: seq<Byte>)
    requires SenderInv(s, S)
    ensures Advances(s, FillWindow(s), S)
  {
    FillWindowInv(s, S);
    var segs := FillWindowSends(s, S);
    var s' := FillWindow(s);
    ChainEmitted(s'.outstanding, Unacked(s'), s'.nextSeqno, s'.isn, Sent(s', S));
    forall i | |s.segmentsOut| <= i < |s'.segmentsOut|
      ensures Emitted(s'.segmentsOut[i], s.isn, Sent(s', S)) && !s'.segmentsOut[i].header.ack
    {
      assert s'.segmentsOut[i] == segs[i - |s.segmentsOut|];
      assert s'.segmentsOut[i] in s'.outstanding;
    }
  }

  lemma AckReceivedAdvances(s: Sender, ackno: u32, window: u16, S: seq<Byte>)
    requires SenderInv(s, S) && s.nextSeqno < U64 - HALF
    ensures Advances(s, AckReceived(s, ackno, window), S)
  {
    var s1 := s.(window := window);
    var ack := Unwrap(ackno, s.isn, s.nextSeqno);
    if ack <= s.nextSeqno {
      assert SenderInv(s1, S);
      var k := AcknowledgeExact(s1, ack, S);
      FillWindowAdvances(Acknowledge(s1, ack), S);
    }
  }

  lemma TickAdvances(s: Sender, ms: nat, S: seq<Byte>)
    requires SenderInv(s, S)
    ensures Advances(s, Tick(s, ms), S)
  {
    ChainEmitted(s.outstanding, Unacked(s), s.nextSeqno, s.isn, Sent(s, S));
    TickExpiry(s, ms, S);
  }

  /** The only empty segments a connection sends carry no SYN and no FIN. */
  lemma SendEmptyInv(s: Sender, rst: bool, S: seq<Byte>)
    requires SenderInv(s, S)
    ensures SenderInv(SendEmpty(s, false, false, rst), S)
    ensures Advances(s, SendEmpty(s, false, false, rst), S)
    ensures Unacked(SendEmpty(s, false, false, rst)) == Unacked(s)
  {
    var s' := SendEmpty(s, false, false, rst);
    assert SegAt(s'.segmentsOut[|s.segmentsOut|], s.nextSeqno, s.isn, Sent(s, S));
  }

  lemma WriteInv(s: Sender, data: seq<Byte>, S: seq<Byte>)
    requires SenderInv(s, S)
    ensures var S' := S + data[..s.stream.Accepted(data)]; var s' := s.(stream := s.stream.Write(data));
      SenderInv(s', S') && Sent(s', S') == Sent(s, S) && (s.finSent ==> S' == S)
  {
    var S' := S + data[..s.stream.Accepted(data)];
    assert S'[..s.stream.read] == S[..s.stream.read];
  }

  lemma EndInputInv(s: Sender, S: seq<Byte>)
    requires SenderInv(s, S)
    ensures SenderInv(s.(stream := s.stream.EndInput()), S)
  {
  }

  // ---------- The counter-based summary ----------

  /** The summary names the real state of the sender. */
  lemma SummaryExact(s: Sender, S: seq<Byte>)
    requires SenderInv(s, S)
    ensures Summarize(s) ==
      if s.stream.error then ERROR
      else if !s.synSent then CLOSED
      else if Unacked(s) == 0 then SYN_SENT
      else if !s.finSent then SYN_ACKED
      else if s.outstanding != [] then FIN_SENT
      else FIN_ACKED
  {
    ChainLength(s.outstanding, Unacked(s), s.nextSeqno, s.isn, Sent(s, S));
  }
}
