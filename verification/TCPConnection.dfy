/** The endpoint as an object. Each method is proved to leave the state that `Connections` specifies. */
module TCPConnections {
  import opened Wrapping
  import opened Segments
  import opened Sending
  import opened SendingProofs
  import opened Connections
  import opened ConnectionProofs
  import opened TCPReceivers
  import opened TCPSenders

  lemma QueueFree(s: Sender, queue: seq<Segment>, S: seq<Byte>)
    requires SenderInv(s, S)
    ensures SenderInv(s.(segmentsOut := queue), S)
  {
  }

  lemma TickAged(c: Connection, c0: Connection, ms: nat, c': Connection)
    requires c0 == c.(sinceLastSegment := c.sinceLastSegment + ms) && c' == Connections.RetryOrGiveUp(c0, ms)
    ensures c' == Connections.Tick(c, ms)
  {
  }

  class TCPConnection {
    const cfg: Config
    const receiver: TCPReceiver
    const sender: TCPSender
    var segmentsOut: seq<Segment>
    var lastRecvEt: nat
    var lingerAfterStreamsFinish: bool
    var active: bool
    /** Every byte the outbound stream has accepted. */
    ghost var accepted: seq<Byte>

    function State(): Connection
      reads this, receiver, receiver.reassembler, receiver.reassembler.output, sender, sender.stream, sender.timer
    {
      Connection(cfg, receiver.State(), sender.State(), segmentsOut, lastRecvEt, lingerAfterStreamsFinish, active)
    }

    ghost predicate Valid()
      reads this, receiver, receiver.reassembler, receiver.reassembler.output, sender, sender.stream, sender.timer
    {
      receiver.Valid() && sender.Valid(accepted) && receiver.reassembler.output != sender.stream
    }

    constructor (cfg: Config)
      requires cfg.recvCapacity < U64
      ensures Valid() && State() == NewConnection(cfg)
    {
      this.cfg := cfg;
      this.receiver := new TCPReceiver(cfg.recvCapacity);
      this.sender := new TCPSender(cfg.sendCapacity, cfg.rtTimeout, cfg.isn);
      segmentsOut, lastRecvEt, lingerAfterStreamsFinish, active, accepted := [], 0, true, true, [];
    }

    method StampSegment(seg: Segment) returns (stamped: Segment)
      requires receiver.Valid()
      ensures stamped == Stamp(seg, receiver.State())
    {
      var header := seg.header;
      var win := receiver.GetWindowSize();
      if win > U16 - 1 {
        header := header.(win := U16 - 1);
      } else {
        header := header.(win := win);
      }
      var ackno := receiver.GetAckno();
      if ackno.Some? {
        header := header.(ack := true, ackno := ackno.value);
      }
      stamped := Segment(header, seg.payload);
    }

    /** Moves the sender's queue to the wire, segment by segment. */
    method ClearSendbuf()
      requires Valid()
      modifies this`segmentsOut, sender`segmentsOut
      ensures Valid() && State() == Connections.ClearSendbuf(old(State()))
    {
      QueueFree(sender.State(), [], accepted);
      ghost var rc := receiver.State();
      ghost var all := segmentsOut + StampAll(sender.segmentsOut, rc);
      while sender.segmentsOut != []
        invariant segmentsOut + StampAll(sender.segmentsOut, rc) == all
        decreases |sender.segmentsOut|
      {
        var seg := StampSegment(sender.segmentsOut[0]);
        assert segmentsOut + ([seg] + StampAll(sender.segmentsOut[1..], rc))
            == segmentsOut + [seg] + StampAll(sender.segmentsOut[1..], rc);
        segmentsOut := segmentsOut + [seg];
        sender.segmentsOut := sender.segmentsOut[1..];
      }
      assert segmentsOut + [] == segmentsOut;
    }

    method Connect()
      requires Valid()
      modifies this`segmentsOut, sender, sender.stream, sender.timer
      ensures Valid() && State() == Connections.Connect(old(State()))
    {
      FillWindowInv(sender.State(), accepted);
      sender.FillWindow();
      ClearSendbuf();
    }

    method Write(data: seq<Byte>) returns (size: nat)
      requires Valid()
      modifies this`segmentsOut, this`accepted, sender, sender.stream, sender.timer
      ensures Valid() && State() == Connections.Write(old(State()), data)
      ensures size == old(sender.stream.State()).Accepted(data) && accepted == old(accepted) + data[..size]
    {
      size := AcceptData(data);
      Connect();
    }

    method AcceptData(data: seq<Byte>) returns (size: nat)
      requires Valid()
      modifies this`accepted, sender.stream
      ensures Valid() && size == old(sender.stream.State()).Accepted(data) && accepted == old(accepted) + data[..size]
      ensures State() == old(State()).(sender := old(sender.State()).(stream := old(sender.stream.State()).Write(data)))
    {
      WriteInv(sender.State(), data, accepted);
      size := sender.stream.Write(data);
      accepted := accepted + data[..size];
    }

    method EndInputStream()
      requires Valid()
      modifies this`segmentsOut, sender, sender.stream, sender.timer
      ensures Valid() && State() == Connections.EndInputStream(old(State()))
    {
      EndInputInv(sender.State(), accepted);
      sender.stream.EndInput();
      Connect();
    }

    method DoShutdown(clean: bool)
      requires Valid()
      modifies this`active, receiver.reassembler.output, sender.stream
      ensures Valid() && State() == Shutdown(old(State()), clean)
    {
      if !clean {
        sender.stream.SetError();
        receiver.reassembler.output.SetError();
      }
      active := false;
    }

    method TakeAck(seg: Segment)
      requires sender.Valid(accepted) && sender.nextSeqno < U64 - HALF
      modifies sender, sender.stream, sender.timer
      ensures sender.Valid(accepted)
      ensures sender.State() ==
        if seg.header.ack then AckReceived(old(sender.State()), seg.header.ackno, seg.header.win)
        else old(sender.State())
    {
      if seg.header.ack {
        sender.AckReceived(seg.header.ackno, seg.header.win, accepted);
      }
    }

    method AnswerSegment(seg: Segment)
      requires sender.stream.Valid()
      modifies sender, sender.stream, sender.timer
      ensures sender.State() == Answer(old(sender.State()), seg)
    {
      if seg.Length() > 0 && sender.segmentsOut == [] {
        sender.FillWindow();
        if sender.segmentsOut == [] {
          sender.SendEmptySegment(false, false, false);
        }
      }
    }

    method AnswerKeepAlive(seg: Segment)
      modifies sender
      ensures sender.State() ==
        if IsKeepAlive(receiver.State(), seg) then SendEmpty(old(sender.State()), false, false, false)
        else old(sender.State())
    {
      var ackno := receiver.GetAckno();
      if ackno.Some? && seg.Length() == 0 && seg.header.seqno == (ackno.value - 1) % U32 {
        sender.SendEmptySegment(false, false, false);
      }
    }

    /** What the sender does about a segment that is not a reset. */
    method React(seg: Segment)
      requires Valid() && sender.nextSeqno < U64 - HALF
      modifies sender, sender.stream, sender.timer
      ensures Valid() && State() == old(State()).(sender := ReactTo(old(sender.State()), receiver.State(), seg))
    {
      ReactInv(sender.State(), receiver.State(), seg, accepted);
      TakeAck(seg);
      AnswerSegment(seg);
      AnswerKeepAlive(seg);
    }

    method SegmentReceived(seg: Segment)
      requires Valid() && sender.nextSeqno < U64 - HALF
      modifies this`segmentsOut, this`lastRecvEt, this`lingerAfterStreamsFinish, this`active
      modifies receiver, receiver.reassembler, receiver.reassembler.output, sender, sender.stream, sender.timer
      ensures Valid() && State() == Connections.SegmentReceived(old(State()), seg)
    {
      lastRecvEt := 0;
      if seg.header.rst {
        DoShutdown(false);
        return;
      }
      receiver.SegmentReceived(seg);
      React(seg);
      ClearSendbuf();
      if receiver.reassembler.output.inputEnded && !sender.stream.inputEnded {
        lingerAfterStreamsFinish := false;
      }
    }

    method MustShutdown() returns (over: bool)
      requires Valid()
      ensures over == ShouldShutdown(State())
    {
      var waiting := receiver.reassembler.UnassembledBytes();
      var flying := sender.BytesInFlight();
      over := receiver.reassembler.output.inputEnded && waiting == 0 && sender.stream.inputEnded && flying == 0
        && sender.nextSeqno == sender.stream.bytesWritten + 2;
    }

    /** Too many retries: a reset goes out and the connection is in error. */
    method GiveUp()
      requires Valid()
      modifies this`segmentsOut, this`active, receiver.reassembler.output, sender, sender.stream
      ensures Valid() && State() == Connections.GiveUp(old(State()))
    {
      SendEmptyInv(sender.State(), true, accepted);
      sender.SendEmptySegment(false, false, true);
      ClearSendbuf();
      DoShutdown(false);
    }

    /** A clean shutdown, if both streams are over and there is nothing to linger for. */
    method CloseIfOver()
      requires Valid()
      modifies this`active
      ensures Valid() && State() == Connections.CloseIfOver(old(State()))
    {
      var over := MustShutdown();
      if over {
        if lingerAfterStreamsFinish {
          if lastRecvEt >= 10 * cfg.rtTimeout {
            active := false;
          }
        } else {
          active := false;
        }
      }
    }

    method TickSender(ms: nat)
      requires Valid()
      modifies this`segmentsOut, this`active, sender, sender.timer
      ensures Valid() && State() == Connections.TickSender(old(State()), ms)
    {
      sender.Tick(ms, accepted);
      CloseIfOver();
      ClearSendbuf();
    }

    method RetryOrGiveUp(ms: nat)
      requires Valid()
      modifies this`segmentsOut, this`active, receiver.reassembler.output, sender, sender.stream, sender.timer
      ensures Valid() && State() == Connections.RetryOrGiveUp(old(State()), ms)
    {
      if sender.consecRetransCount >= MAX_RETX_ATTEMPTS {
        GiveUp();
      } else {
        TickSender(ms);
      }
    }

    method Tick(ms: nat)
      requires Valid()
      modifies this`segmentsOut, this`lastRecvEt, this`active
      modifies receiver.reassembler.output, sender, sender.stream, sender.timer
      ensures Valid() && State() == Connections.Tick(old(State()), ms)
    {
      ghost var c := State();
      lastRecvEt := lastRecvEt + ms;
      ghost var c0 := State();
      RetryOrGiveUp(ms);
      TickAged(c, c0, ms, State());
    }
  }
}
