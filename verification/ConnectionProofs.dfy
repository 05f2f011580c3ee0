/**
 What the calls of one endpoint do to its sender.
 */
module ConnectionProofs {
  import opened Wrappers
  import opened Wrapping
  import opened Segments
  import opened Sending
  import opened SendingProofs
  import opened Receiving
  import opened Connections

  lemma AdvancesTrans(s: Sender, s1: Sender, s2: Sender, S: seq<Byte>)
    requires Advances(s, s1, S) && Advances(s1, s2, S)
    ensures Advances(s, s2, S)
  {
    forall i | |s.segmentsOut| <= i < |s2.segmentsOut|
      ensures Emitted(s2.segmentsOut[i], s.isn, Sent(s2, S)) && !s2.segmentsOut[i].header.ack
    {
      if i < |s1.segmentsOut| {
        assert s2.segmentsOut[i] == s1.segmentsOut[i];
        EmittedGrows(s1.segmentsOut[i], s.isn, Sent(s1, S), Sent(s2, S));
      }
    }
  }

  /** A step after which the bookkeeping holds, nothing above `limit` has been dropped, and no retry was counted. */
  ghost predicate Proceeds(s: Sender, s': Sender, S: seq<Byte>, limit: int)
  {
    && SenderInv(s', S) && Advances(s, s', S)
    && Unacked(s') <= Max(Unacked(s), limit)
    && s'.retransmissions <= s.retransmissions
  }

  lemma ProceedsTrans(s: Sender, s1: Sender, s2: Sender, S: seq<Byte>, limit: int)
    requires Proceeds(s, s1, S, limit) && Proceeds(s1, s2, S, limit)
    ensures Proceeds(s, s2, S, limit)
  {
    AdvancesTrans(s, s1, s2, S);
  }

  lemma FillWindowProceeds(s: Sender, S: seq<Byte>, limit: int)
    requires SenderInv(s, S)
    ensures Proceeds(s, FillWindow(s), S, limit)
  {
    FillWindowInv(s, S);
    FillWindowAdvances(s, S);
    var segs := FillWindowSends(s, S);
  }

  lemma SendEmptyProceeds(s: Sender, rst: bool, S: seq<Byte>, limit: int)
    requires SenderInv(s, S)
    ensures Proceeds(s, SendEmpty(s, false, false, rst), S, limit)
  {
    SendEmptyInv(s, rst, S);
  }

  lemma AckRetransmissions(s: Sender, ackno: u32, window: u16, S: seq<Byte>)
    requires SenderInv(s, S) && s.nextSeqno < U64 - HALF
    ensures AckReceived(s, ackno, window).retransmissions <= s.retransmissions
  {
    var s1 := s.(window := window);
    var ack := Unwrap(ackno, s.isn, s.nextSeqno);
    if ack <= s.nextSeqno {
      DropRetransmissions(s1, ack);
      assert SenderInv(s1, S);
      var k := AcknowledgeExact(s1, ack, S);
      var segs := FillWindowSends(Acknowledge(s1, ack), S);
    }
  }

  lemma {:induction false} DropRetransmissions(s: Sender, ack: nat)
    ensures DropAcked(s, ack).retransmissions <= s.retransmissions
    decreases |s.outstanding|
  {
    if s.outstanding != [] &&
       Unwrap(s.outstanding[0].header.seqno, s.isn, s.nextSeqno) + s.outstanding[0].Length() <= ack {
      DropRetransmissions(DropFirst(s), ack);
    }
  }

  /** `seg` acknowledges a number up to `limit`, and up to what has been sent. */
  ghost predicate AcksUpTo(seg: Segment, isn: u32, limit: nat)
  {
    seg.header.ack ==> exists v: nat :: 1 <= v <= limit && seg.header.ackno == Wrap(v, isn)
  }

  lemma AckProceeds(s: Sender, seg: Segment, S: seq<Byte>, limit: nat)
    requires SenderInv(s, S) && |S| < HALF && seg.header.ack
    requires AcksUpTo(seg, s.isn, limit) && limit <= s.nextSeqno
    ensures Proceeds(s, AckReceived(s, seg.header.ackno, seg.header.win), S, limit)
  {
    var v: nat :| 1 <= v <= limit && seg.header.ackno == Wrap(v, s.isn);
    UnwrapWrap(v, s.isn, s.nextSeqno);
    var k, segs := AckReceivedExact(s, seg.header.ackno, seg.header.win, S);
    AckReceivedAdvances(s, seg.header.ackno, seg.header.win, S);
    AckRetransmissions(s, seg.header.ackno, seg.header.win, S);
  }

  lemma AnswerProceeds(s: Sender, seg: Segment, S: seq<Byte>, limit: int)
    requires SenderInv(s, S)
    ensures Proceeds(s, Answer(s, seg), S, limit)
  {
    if seg.Length() > 0 && s.segmentsOut == [] {
      FillWindowProceeds(s, S, limit);
      var s1 := FillWindow(s);
      if s1.segmentsOut == [] {
        SendEmptyProceeds(s1, false, S, limit);
        ProceedsTrans(s, s1, SendEmpty(s1, false, false, false), S, limit);
      }
    }
  }

  lemma ReactProceeds(s: Sender, rc: Receiver, seg: Segment, S: seq<Byte>, limit: nat)
    requires SenderInv(s, S) && |S| < HALF
    requires AcksUpTo(seg, s.isn, limit) && limit <= s.nextSeqno
    ensures Proceeds(s, ReactTo(s, rc, seg), S, limit)
  {
    var s1 := s;
    if seg.header.ack {
      AckProceeds(s, seg, S, limit);
      s1 := AckReceived(s, seg.header.ackno, seg.header.win);
    }
    AnswerProceeds(s1, seg, S, limit);
    var s2 := Answer(s1, seg);
    ProceedsTrans(s, s1, s2, S, limit);
    if IsKeepAlive(rc, seg) {
      SendEmptyProceeds(s2, false, S, limit);
      ProceedsTrans(s, s2, SendEmpty(s2, false, false, false), S, limit);
    }
  }

  lemma TickProceeds(s: Sender, ms: nat, S: seq<Byte>)
    requires SenderInv(s, S)
    ensures var s' := Sending.Tick(s, ms);
      && SenderInv(s', S) && Advances(s, s', S)
      && Unacked(s') == Unacked(s) && s'.retransmissions <= s.retransmissions + 1
  {
    TickInv(s, ms, S);
    TickAdvances(s, ms, S);
    TickExpiry(s, ms, S);
  }

  /** Queued segments and error marks do not matter to the bookkeeping. */
  lemma SameBooks(s: Sender, s': Sender, S: seq<Byte>)
    requires SenderInv(s, S)
    requires s' == s.(segmentsOut := s'.segmentsOut, stream := s.stream.(error := s'.stream.error))
    ensures SenderInv(s', S)
  {
  }

  /** The bookkeeping survives any acknowledgement, honest or not, and no retry is counted for it. */
  lemma ReactInv(s: Sender, rc: Receiver, seg: Segment, S: seq<Byte>)
    requires SenderInv(s, S) && s.nextSeqno < U64 - HALF
    ensures SenderInv(ReactTo(s, rc, seg), S) && ReactTo(s, rc, seg).retransmissions <= s.retransmissions
  {
    var s1 := s;
    if seg.header.ack {
      var k, segs := AckReceivedExact(s, seg.header.ackno, seg.header.win, S);
      AckRetransmissions(s, seg.header.ackno, seg.header.win, S);
      s1 := AckReceived(s, seg.header.ackno, seg.header.win);
    }
    AnswerProceeds(s1, seg, S, 0);
    var s2 := Answer(s1, seg);
    if IsKeepAlive(rc, seg) {
      SendEmptyProceeds(s2, false, S, 0);
    }
  }

  // ---------- Answers ----------

  lemma {:induction false} StampAllAt(segs: seq<Segment>, rc: Receiver)
    ensures |StampAll(segs, rc)| == |segs|
    ensures forall k | 0 <= k < |segs| :: StampAll(segs, rc)[k] == Stamp(segs[k], rc)
  {
    if segs != [] {
      StampAllAt(segs[1..], rc);
    }
  }

  /** `seg` carries the receiver's acknowledgement and window. */
  ghost predicate Reports(seg: Segment, rc: Receiver)
  {
    && (rc.synSet ==> seg.header.ack && Ackno(rc) == Some(seg.header.ackno))
    && (WindowSize(rc) < U16 ==> WindowSize(rc) < 0 || seg.header.win == WindowSize(rc))
  }

  /**
   Every segment that occupies sequence numbers is answered by at least one segment, and all that goes out then
   reports the state of the receiver after it.
   */
  lemma Answered(c: Connection, seg: Segment) returns (sent: seq<Segment>)
    requires !seg.header.rst && seg.Length() > 0 && c.sender.segmentsOut == []
    ensures var c' := SegmentReceived(c, seg);
      && c'.segmentsOut == c.segmentsOut + sent && sent != [] && c'.sender.segmentsOut == []
      && forall x | x in sent :: Reports(x, c'.receiver)
  {
    var rc := Receive(c.receiver, seg);
    var s := ReactTo(c.sender, rc, seg);
    StampAllAt(s.segmentsOut, rc);
    sent := StampAll(s.segmentsOut, rc);
    forall x | x in sent ensures Reports(x, rc) {
      var k :| 0 <= k < |sent| && sent[k] == x;
      assert x == Stamp(s.segmentsOut[k], rc);
    }
  }

  /** A reset, from the peer or after eight retries, leaves the connection inactive and both streams in error. */
  ghost predicate Broken(c: Connection) { !c.active && c.Inbound().error && c.Outbound().error }

  lemma ResetBreaks(c: Connection, seg: Segment)
    requires seg.header.rst
    ensures Broken(SegmentReceived(c, seg)) && SegmentReceived(c, seg).segmentsOut == c.segmentsOut
  {
  }

  lemma GiveUpBreaks(c: Connection, ms: nat)
    requires c.sender.retransmissions >= MAX_RETX_ATTEMPTS
    ensures var c' := Connections.Tick(c, ms);
      && Broken(c') && |c'.segmentsOut| == |c.segmentsOut| + |c.sender.segmentsOut| + 1
      && c'.segmentsOut[|c'.segmentsOut| - 1].header.rst
  {
    StampAllAt(SendEmpty(c.sender, false, false, true).segmentsOut, c.receiver);
  }
}
