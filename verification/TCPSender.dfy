/**
 The sender as an object. Each method is proved to leave the state that `Sending` specifies.
 */
module TCPSenders {
  import opened Wrapping
  import opened ByteStreams
  import opened Segments
  import opened Sending
  import opened SendingProofs

  class RetransmissionTimer {
    var active: bool
    var expired: bool
    var currentTime: u32
    var timeout: u32

    function State(): Timer
      reads this
    {
      Timer(active, expired, currentTime, timeout)
    }

    constructor ()
      ensures State() == IDLE
    {
      active, expired, currentTime, timeout := false, false, 0, 0;
    }

    method Start(timeout: u32)
      modifies this
      ensures State() == Started(timeout)
    {
      active, expired, currentTime, this.timeout := true, false, 0, timeout;
    }

    /** Refuses a timer that was not started. */
    method Update(timeElapsed: nat) returns (ok: bool)
      modifies this
      ensures ok == old(active)
      ensures State() == if ok then old(State()).Update(timeElapsed) else old(State())
    {
      if !active {
        return false;
      }
      ok := true;
      currentTime := (currentTime + timeElapsed % U32) % U32;
      if currentTime >= timeout {
        expired := true;
      }
    }

    method Reset()
      modifies this
      ensures State() == IDLE
    {
      active, expired, timeout, currentTime := false, false, 0, 0;
    }
  }

  lemma FillRoomUnfold(s: Sender, room: nat)
    requires room > 0
    ensures var seg := NextSegment(s, room);
      FillRoom(s, room) == if seg.Length() == 0 then s else FillRoom(Send(s, seg), room - seg.Length())
  {
  }

  class TCPSender {
    const isn: u32
    var segmentsOut: seq<Segment>
    var retransBuf: seq<Segment>
    const initialTimeout: u16
    var retransTimeout: u32
    var consecRetransCount: nat
    const stream: ByteStream
    var nextSeqno: nat
    var windowSize: u16
    var synSent: bool
    var finSent: bool
    const timer: RetransmissionTimer

    function State(): Sender
      reads this, stream, timer
    {
      Sender(isn, segmentsOut, retransBuf, initialTimeout, retransTimeout, consecRetransCount, stream.State(),
             nextSeqno, windowSize, synSent, finSent, timer.State())
    }

    /** The bookkeeping holds for the bytes `S` that the stream has accepted. */
    ghost predicate Valid(S: seq<Byte>)
      reads this, stream, timer
    {
      SenderInv(State(), S)
    }

    constructor (capacity: nat, timeout: u16, isn: u32)
      ensures State() == NewSender(capacity, timeout, isn) && Valid([])
      ensures fresh(stream) && fresh(timer)
    {
      this.isn, this.initialTimeout, this.retransTimeout := isn, timeout, timeout;
      this.stream := new ByteStream(capacity);
      this.timer := new RetransmissionTimer();
      segmentsOut, retransBuf, consecRetransCount, nextSeqno, windowSize := [], [], 0, 0, 1;
      synSent, finSent := false, false;
      new;
      NewSenderInv(capacity, timeout, isn);
    }

    method BytesInFlight() returns (res: nat)
      ensures res == InFlight(retransBuf)
    {
      res := 0;
      for i := 0 to |retransBuf|
        invariant res + InFlight(retransBuf[i..]) == InFlight(retransBuf)
      {
        assert retransBuf[i..][1..] == retransBuf[i + 1..];
        res := res + retransBuf[i].Length();
      }
    }

    /** Builds the next segment for `room` free sequence numbers, marking what it takes; nothing is queued yet. */
    method BuildSegment(room: nat) returns (seg: Segment)
      requires room > 0 && stream.Valid()
      modifies this, stream
      ensures seg == NextSegment(old(State()), room)
      ensures State() == old(State()).(stream := old(stream.State()).Pop(|seg.payload|),
                                       synSent := old(synSent) || seg.header.syn,
                                       finSent := old(finSent) || seg.header.fin)
      ensures stream.Valid()
    {
      var segSize := room;
      var header := BLANK;
      if !synSent {
        segSize := segSize - 1;
        header := header.(syn := true);
        synSent := true;
      }
      header := header.(seqno := Wrap(nextSeqno, isn));
      var segData := stream.Read(Min(segSize, MAX_PAYLOAD_SIZE));
      segSize := segSize - |segData|;
      if !finSent && stream.inputEnded && stream.buf == [] && segSize > 0 {
        segSize := segSize - 1;
        header := header.(fin := true);
        finSent := true;
      }
      seg := Segment(header, segData);
    }

    /** One round of `FillWindow`; 0 when nothing was left to send. */
    method SendNext(room: nat) returns (size: nat)
      requires room > 0 && stream.Valid()
      modifies this, stream, timer
      ensures size == NextSegment(old(State()), room).Length()
      ensures State() == if size == 0 then old(State()) else Send(old(State()), NextSegment(old(State()), room))
      ensures stream.Valid()
    {
      var seg := BuildSegment(room);
      size := seg.Length();
      if size == 0 {
        return;
      }
      segmentsOut := segmentsOut + [seg];
      retransBuf := retransBuf + [seg];
      nextSeqno := nextSeqno + size;
      if !timer.active {
        timer.Start(retransTimeout);
      }
    }

    method FillWindow()
      requires stream.Valid()
      modifies this, stream, timer
      ensures stream.Valid() && State() == Sending.FillWindow(old(State()))
    {
      var remaining: nat := if windowSize != 0 then windowSize else 1;
      var outSize := BytesInFlight();
      if remaining < outSize {
        return;
      }
      remaining := remaining - outSize;
      FillLoop(remaining);
    }

    /** The loop of `FillWindow`. */
    method FillLoop(room: nat)
      requires stream.Valid()
      modifies this, stream, timer
      ensures stream.Valid() && State() == FillRoom(old(State()), room)
    {
      var remaining := room;
      ghost var s := State();
      while remaining != 0
        invariant stream.Valid() && State() == s
        invariant FillRoom(s, remaining) == FillRoom(old(State()), room)
        decreases remaining
      {
        FillRoomUnfold(s, remaining);
        var size := SendNext(remaining);
        if size == 0 {
          break;
        }
        s := State();
        remaining := remaining - size;
      }
    }

    method AckReceived(ackno: u32, window: u16, ghost S: seq<Byte>)
      requires Valid(S) && nextSeqno < U64 - HALF
      modifies this, stream, timer
      ensures Valid(S) && State() == Sending.AckReceived(old(State()), ackno, window)
    {
      ghost var k, segs := AckReceivedExact(State(), ackno, window, S);
      windowSize := window;
      var ackSeqno := Unwrap(ackno, isn, nextSeqno);
      if ackSeqno > nextSeqno {
        return;
      }
      AcknowledgeUpTo(ackSeqno);
      FillWindow();
    }

    method AcknowledgeUpTo(ackSeqno: nat)
      requires stream.Valid()
      modifies this, timer
      ensures State() == Acknowledge(old(State()), ackSeqno)
    {
      DropAckedSegments(ackSeqno);
      if retransBuf == [] {
        timer.Reset();
      }
    }

    /** The loop of `AckReceived`. */
    method DropAckedSegments(ackSeqno: nat)
      requires stream.Valid()
      modifies this, timer
      ensures State() == DropAcked(old(State()), ackSeqno)
    {
      while retransBuf != []
        invariant DropAcked(State(), ackSeqno) == DropAcked(old(State()), ackSeqno)
        decreases |retransBuf|
      {
        if Unwrap(retransBuf[0].header.seqno, isn, nextSeqno) + retransBuf[0].Length() <= ackSeqno {
          ghost var s := State();
          retransBuf := retransBuf[1..];
          retransTimeout := initialTimeout;
          timer.Start(retransTimeout);
          consecRetransCount := 0;
          assert State() == DropFirst(s);
        } else {
          break;
        }
      }
    }

    /** An expired timer always finds a segment to send again. */
    method Tick(ms: nat, ghost S: seq<Byte>)
      requires Valid(S)
      modifies this, timer
      ensures Valid(S) && State() == Sending.Tick(old(State()), ms)
    {
      TickInv(State(), ms, S);
      if timer.active {
        var _ := timer.Update(ms);
      }
      if timer.active && timer.expired {
        ResendOldest();
      }
    }

    method ResendOldest()
      requires retransBuf != []
      modifies this, timer
      ensures State() == Retransmit(old(State()))
    {
      segmentsOut := segmentsOut + [retransBuf[0]];
      if windowSize > 0 {
        consecRetransCount := consecRetransCount + 1;
        retransTimeout := retransTimeout * 2 % U32;
      }
      timer.Start(retransTimeout);
    }

    method SendEmptySegment(syn: bool, fin: bool, rst: bool)
      modifies this
      ensures State() == SendEmpty(old(State()), syn, fin, rst)
    {
      if syn {
        synSent := true;
      }
      if fin {
        finSent := true;
      }
      var seg := Segment(BLANK.(seqno := Wrap(nextSeqno, isn), syn := syn, fin := fin, rst := rst), []);
      nextSeqno := nextSeqno + seg.Length();
      segmentsOut := segmentsOut + [seg];
    }
  }
}
