/**
 The sending half of a TCP endpoint: cutting the outgoing stream into segments, filling the peer's window,
 keeping what is outstanding, and the retransmission timer (section 5 of RFC 6298).
 */
module Sending {
  import opened Wrapping
  import opened ByteStreams
  import opened Segments

  const MAX_PAYLOAD_SIZE: nat := 1000

  datatype Timer = Timer(active: bool, expired: bool, elapsed: u32, timeout: u32)
  {
    function Update(ms: nat): Timer {
      var now := (elapsed + ms % U32) % U32;
      this.(elapsed := now, expired := expired || now >= timeout)
    }

    predicate Expired() { active && expired }
  }

  const IDLE: Timer := Timer(false, false, 0, 0)

  function Started(timeout: u32): Timer { Timer(true, false, 0, timeout) }

  datatype Sender = Sender(isn: u32, segmentsOut: seq<Segment>, outstanding: seq<Segment>,
                           initialRto: u16, rto: u32, retransmissions: nat,
                           stream: Stream, nextSeqno: nat, window: u16, synSent: bool, finSent: bool, timer: Timer)

  function NewSender(capacity: nat, rto: u16, isn: u32): Sender {
    Sender(isn, [], [], rto, rto, 0, Empty(capacity), 0, 1, false, false, IDLE)
  }

  function InFlight(segs: seq<Segment>): nat {
    if segs == [] then 0 else segs[0].Length() + InFlight(segs[1..])
  }

  // ---------- Filling the window ----------

  /** How many bytes the next segment takes from the stream when `room` sequence numbers are free. */
  function PayloadSize(s: Sender, room: nat): nat
    requires room > 0
  {
    Min(Min(if s.synSent then room else room - 1, MAX_PAYLOAD_SIZE), |s.stream.buf|)
  }

  function NextSegment(s: Sender, room: nat): (seg: Segment)
    requires room > 0
    ensures seg.Length() <= room && |seg.payload| <= MAX_PAYLOAD_SIZE
  {
    var n := PayloadSize(s, room);
    var left := (if s.synSent then room else room - 1) - n;
    Segment(BLANK.(seqno := Wrap(s.nextSeqno, s.isn), syn := !s.synSent,
                   fin := !s.finSent && s.stream.Pop(n).Eof() && left > 0),
            s.stream.buf[..n])
  }

  /** The sender once `seg`, which takes the next bytes of the stream, is on its way. */
  function Send(s: Sender, seg: Segment): Sender {
    s.(stream := s.stream.Pop(|seg.payload|),
       synSent := s.synSent || seg.header.syn,
       finSent := s.finSent || seg.header.fin,
       segmentsOut := s.segmentsOut + [seg],
       outstanding := s.outstanding + [seg],
       nextSeqno := s.nextSeqno + seg.Length(),
       timer := if s.timer.active then s.timer else Started(s.rto))
  }

  function FillRoom(s: Sender, room: nat): Sender
    decreases room
  {
    if room == 0 then s else
    var seg := NextSegment(s, room);
    if seg.Length() == 0 then s else FillRoom(Send(s, seg), room - seg.Length())
  }

  function EffectiveWindow(s: Sender): nat { if s.window != 0 then s.window else 1 }

  function FillWindow(s: Sender): Sender {
    var out := InFlight(s.outstanding);
    if EffectiveWindow(s) < out then s else FillRoom(s, EffectiveWindow(s) - out)
  }

  // ---------- Acknowledgements and time ----------

  function DropFirst(s: Sender): Sender
    requires s.outstanding != []
  {
    s.(outstanding := s.outstanding[1..], rto := s.initialRto, timer := Started(s.initialRto), retransmissions := 0)
  }

  function DropAcked(s: Sender, ack: nat): Sender
    decreases |s.outstanding|
  {
    if s.outstanding != [] &&
       Unwrap(s.outstanding[0].header.seqno, s.isn, s.nextSeqno) + s.outstanding[0].Length() <= ack
    then DropAcked(DropFirst(s), ack)
    else s
  }

  function StopIfIdle(s: Sender): Sender {
    if s.outstanding == [] then s.(timer := IDLE) else s
  }

  function Acknowledge(s: Sender, ack: nat): Sender {
    StopIfIdle(DropAcked(s, ack))
  }

  function AckReceived(s: Sender, ackno: u32, window: u16): Sender {
    var s1 := s.(window := window);
    var ack := Unwrap(ackno, s.isn, s.nextSeqno);
    if ack > s.nextSeqno then s1
    else FillWindow(Acknowledge(s1, ack))
  }

  /** The front of the retransmission buffer, which is never empty when the timer expires. */
  function Oldest(s: Sender): seq<Segment> { s.outstanding[..Min(1, |s.outstanding|)] }

  /** The oldest segment goes out again; the timeout doubles unless the window is closed. */
  function Retransmit(s: Sender): Sender {
    var s1 := s.(segmentsOut := s.segmentsOut + Oldest(s));
    var s2 := if s.window > 0
              then s1.(retransmissions := s.retransmissions + 1, rto := s.rto * 2 % U32)
              else s1;
    s2.(timer := Started(s2.rto))
  }

  function Tick(s: Sender, ms: nat): Sender {
    var s1 := if s.timer.active then s.(timer := s.timer.Update(ms)) else s;
    if s1.timer.Expired() then Retransmit(s1) else s1
  }

  function SendEmpty(s: Sender, syn: bool, fin: bool, rst: bool): Sender {
    var seg := Segment(BLANK.(seqno := Wrap(s.nextSeqno, s.isn), syn := syn, fin := fin, rst := rst), []);
    s.(synSent := s.synSent || syn, finSent := s.finSent || fin,
       nextSeqno := s.nextSeqno + seg.Length(), segmentsOut := s.segmentsOut + [seg])
  }

  // ---------- The counter-based summary of a sender ----------

  datatype Summary = ERROR | CLOSED | SYN_SENT | SYN_ACKED | FIN_SENT | FIN_ACKED

  function Summarize(s: Sender): Summary {
    if s.stream.error then ERROR
    else if s.nextSeqno == 0 then CLOSED
    else if s.nextSeqno == InFlight(s.outstanding) then SYN_SENT
    else if !s.stream.Eof() then SYN_ACKED
    else if s.nextSeqno < s.stream.written + 2 then SYN_ACKED
    else if InFlight(s.outstanding) > 0 then FIN_SENT
    else FIN_ACKED
  }
}
