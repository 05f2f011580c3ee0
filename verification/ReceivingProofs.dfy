/**
 What the receiver makes of segments that an honest peer has sent. `p` is what the peer has sent so far.
 */
module ReceivingProofs {
  import opened Wrappers
  import opened Wrapping
  import opened Segments
  import opened Reassembly
  import opened ReassemblyProofs
  import opened ReassemblyHeld
  import opened SendingProofs
  import opened Receiving

  ghost predicate ReceiverInv(rc: Receiver, isn: u32, p: Progress)
  {
    && Inv(rc.reassembler) && rc.capacity == rc.reassembler.capacity
    && Content(rc.reassembler, p.bytes)
    && (rc.synSet ==> p.syn && rc.initSeqno == isn)
    && (!rc.synSet ==> rc.reassembler.waitIndex == 0 && rc.reassembler.waiting == [] && !rc.finSet)
    && (rc.finSet ==> p.fin)
    && (!rc.finSet ==> !rc.reassembler.output.ended && rc.reassembler.eofIndex == NO_EOF)
  }

  lemma NewReceiverInv(capacity: nat, isn: u32)
    requires capacity < U64
    ensures ReceiverInv(NewReceiver(capacity), isn, Progress(false, [], false))
  {
  }

  lemma ContentGrows(r: Reassembler, P: seq<Byte>, P': seq<Byte>)
    requires Content(r, P) && P <= P'
    ensures Content(r, P')
  {
    forall e | e in r.waiting ensures Agrees(P', e.start, e.data) {
      assert Agrees(P, e.start, e.data);
      assert P'[e.start..e.End()] == P[e.start..e.End()];
    }
    assert P'[r.output.read..r.output.written] == P[r.output.read..r.output.written];
  }

  lemma ReceiverGrows(rc: Receiver, isn: u32, p: Progress, p': Progress)
    requires ReceiverInv(rc, isn, p) && Grows(p, p')
    ensures ReceiverInv(rc, isn, p')
  {
    ContentGrows(rc.reassembler, p.bytes, p'.bytes);
  }

  /** Under 2^31 bytes, the wrapped sequence number always yields the true stream index. */
  lemma TrueIndex(rc: Receiver, seg: Segment, a: nat, isn: u32, p: Progress)
    requires rc.initSeqno == isn && rc.reassembler.waitIndex <= |p.bytes| < HALF
    requires SegAt(seg, a, isn, p) && seg.payload != []
    ensures StreamIndex(rc, seg) == FirstByte(a)
    ensures seg.header.syn || seg.header.seqno != isn
  {
    UnwrapWrap(FirstByte(a), isn, rc.reassembler.waitIndex);
    if a > 0 {
      WrapPredecessor(a, isn);
      WrapMoves(a, isn);
    }
  }

  lemma PushKeeps(r: Reassembler, data: seq<Byte>, index: nat, eof: bool, P: seq<Byte>) returns (r': Reassembler)
    requires Inv(r) && Content(r, P) && Agrees(P, index, data) && |P| < NO_EOF
    ensures r' == Push(r, data, index, eof) && Inv(r') && Content(r', P)
    ensures r'.capacity == r.capacity && r'.waitIndex >= r.waitIndex && (r.output.ended ==> r'.output.ended)
    ensures !r.output.ended && r.eofIndex == NO_EOF && !eof ==> !r'.output.ended && r'.eofIndex == NO_EOF
  {
    r' := Push(r, data, index, eof);
    PushInv(r, data, index, eof);
    PushContent(r, data, index, eof, P);
    if !r.output.ended && r.eofIndex == NO_EOF && !eof {
      NotEnded(r, data, index);
    }
  }

  lemma TakeDataInv(rc: Receiver, seg: Segment, isn: u32, p: Progress)
    requires rc.synSet && ReceiverInv(rc, isn, p) && Emitted(seg, isn, p) && |p.bytes| < HALF
    ensures var rc' := TakeData(rc, seg);
      && Inv(rc'.reassembler) && Content(rc'.reassembler, p.bytes)
      && rc'.reassembler.capacity == rc.capacity
      && rc'.reassembler.waitIndex >= rc.reassembler.waitIndex
      && (rc.reassembler.output.ended ==> rc'.reassembler.output.ended)
      && rc' == rc.(reassembler := rc'.reassembler)
      && (!rc.finSet && !seg.header.fin ==> !rc'.reassembler.output.ended && rc'.reassembler.eofIndex == NO_EOF)
  {
    if seg.payload != [] {
      var a: nat :| a <= |p.bytes| + 2 && SegAt(seg, a, isn, p);
      TrueIndex(rc, seg, a, isn, p);
      var r := PushKeeps(rc.reassembler, seg.payload, FirstByte(a), seg.header.fin, p.bytes);
      assert TakeData(rc, seg) == rc.(reassembler := r);
    }
  }

  lemma NotEnded(r: Reassembler, data: seq<Byte>, index: nat)
    requires Inv(r) && !r.output.ended && r.eofIndex == NO_EOF
    requires Push(r, data, index, false).waitIndex < NO_EOF
    ensures !Push(r, data, index, false).output.ended && Push(r, data, index, false).eofIndex == NO_EOF
  {
    var r0, r1, done, r' := PushCases(r, data, index, false);
    if data != [] && r.waitIndex < index + |data| {
      PlaceInv(r0, data, index);
    }
    EndIfKeeps(r1, done);
  }

  lemma TakeSynInv(rc: Receiver, seg: Segment, isn: u32, p: Progress)
    requires ReceiverInv(rc, isn, p) && Emitted(seg, isn, p)
    requires seg.header.syn || rc.synSet
    ensures ReceiverInv(TakeSyn(rc, seg), isn, p) && TakeSyn(rc, seg).synSet
  {
    var a: nat :| a <= |p.bytes| + 2 && SegAt(seg, a, isn, p);
  }

  lemma TakeFinKeeps(rc: Receiver, seg: Segment, P: seq<Byte>)
    requires Inv(rc.reassembler) && Content(rc.reassembler, P)
    ensures Inv(TakeFin(rc, seg).reassembler) && Content(TakeFin(rc, seg).reassembler, P)
  {
  }

  lemma ReceiveInv(rc: Receiver, seg: Segment, isn: u32, p: Progress)
    requires ReceiverInv(rc, isn, p) && Emitted(seg, isn, p) && |p.bytes| < HALF
    ensures ReceiverInv(Receive(rc, seg), isn, p)
    ensures Receive(rc, seg).reassembler.waitIndex >= rc.reassembler.waitIndex
    ensures rc.synSet ==> Receive(rc, seg).synSet
    ensures rc.reassembler.output.ended ==> Receive(rc, seg).reassembler.output.ended
  {
    if seg.header.syn || rc.synSet {
      TakeSynInv(rc, seg, isn, p);
      var rc1 := TakeSyn(rc, seg);
      TakeDataInv(rc1, seg, isn, p);
      TakeFinKeeps(TakeData(rc1, seg), seg, p.bytes);
      assert seg.header.fin ==> p.fin;
    }
  }

  /** A segment that covers the awaited byte advances exactly an open receiver that stores less than its capacity. */
  lemma ReceiveAdvances(rc: Receiver, seg: Segment, a: nat, isn: u32, p: Progress)
    requires ReceiverInv(rc, isn, p) && rc.synSet && |p.bytes| < HALF
    requires SegAt(seg, a, isn, p) && FirstByte(a) <= rc.reassembler.waitIndex < FirstByte(a) + |seg.payload|
    requires Edge(rc.reassembler) < U64
    ensures Receive(rc, seg).reassembler.waitIndex > rc.reassembler.waitIndex <==>
      !rc.reassembler.output.ended && Stored(rc.reassembler) < rc.capacity
  {
    TrueIndex(rc, seg, a, isn, p);
    ReassemblyProofs.Progress(rc.reassembler, seg.payload, FirstByte(a), seg.header.fin);
  }

  // ---------- When the input ends ----------

  lemma PushEndsEmpty(r: Reassembler, data: seq<Byte>, index: nat, eof: bool)
    requires Inv(r) && !r.output.ended && Push(r, data, index, eof).output.ended
    ensures Push(r, data, index, eof).waiting == []
  {
    var r0, r1, done, r' := PushCases(r, data, index, eof);
    if data != [] && r.waitIndex < index + |data| {
      PlaceInv(r0, data, index);
    }
  }

  /** The stream index at which the receiver, as it is, would put a segment's bytes. */
  function PayloadIndex(rc: Receiver, seg: Segment): nat { StreamIndex(TakeSyn(rc, seg), seg) }

  /**
   After a push no byte waits although fewer than `total` are written. The push brings nothing new and that is so
   already; or it is out of order, takes the place of all that waited and is itself refused; or it is in order, and
   the bytes held with those it adds are exactly the first `n`.
   */
  ghost predicate GapAfterPush(r: Reassembler, data: seq<Byte>, index: nat, total: nat)
  {
    if data == [] || index + |data| <= r.waitIndex then Unassembled(r.waiting) == 0 && r.waitIndex < total
    else if index > r.waitIndex then Lost(r, data, index) && r.waitIndex < total
    else exists n: nat | n < total :: HoldsFirstWith(r, data, index, n)
  }

  /** The segment brings a FIN, or one was seen before, and it leaves a gap with no byte waiting behind it. */
  ghost predicate GapAtFin(rc: Receiver, seg: Segment, total: nat)
  {
    && (rc.synSet || seg.header.syn) && (rc.finSet || seg.header.fin)
    && GapAfterPush(rc.reassembler, seg.payload, PayloadIndex(rc, seg), total)
  }

  lemma GapAfterPushIff(r: Reassembler, data: seq<Byte>, index: nat, eof: bool, total: nat)
    requires Inv(r)
    ensures var r' := Push(r, data, index, eof);
      GapAfterPush(r, data, index, total) <==> Unassembled(r'.waiting) == 0 && r'.waitIndex < total
  {
    var r0, r1, done, r' := PushCases(r, data, index, eof);
    if data != [] && r.waitIndex < index + |data| {
      SamePush(r, r0, data, index);
      if index > r.waitIndex {
        LostIff(r, data, index);
      } else {
        InOrderFirst(r, data, index, r1.waitIndex);
        forall n: nat ensures HoldsFirstWith(r, data, index, n) ==> n == r1.waitIndex && Unassembled(r1.waiting) == 0 {
          InOrderFirst(r, data, index, n);
        }
      }
    }
  }

  /** The end of the stream does not matter to where bytes go. */
  lemma SamePush(r: Reassembler, r0: Reassembler, data: seq<Byte>, index: nat)
    requires Inv(r) && r0 == r.(eofIndex := r0.eofIndex) && data != [] && r.waitIndex < index + |data|
    ensures var m, m0 := Place(r, data, index), Place(r0, data, index);
      m0.waiting == m.waiting && m0.waitIndex == m.waitIndex
  {
    if index <= r.waitIndex {
      var d := Truncate(r, data[r.waitIndex - index..], index);
      assert Truncate(r0, data[r.waitIndex - index..], index) == d;
      assert WriteOut(r0, d) == WriteOut(r, d).(eofIndex := r0.eofIndex);
      DrainSame(WriteOut(r, d), r0.eofIndex);
    } else {
      InsertSame(r, r0, data, index);
    }
  }

  lemma InsertSame(r: Reassembler, r0: Reassembler, data: seq<Byte>, index: nat)
    requires r0 == r.(eofIndex := r0.eofIndex)
    ensures CheckedInsert(r0, data, index) == CheckedInsert(r, data, index).(eofIndex := r0.eofIndex)
  {
    var s := ScanEntries(r.waiting, index, index + |data|, data, index);
    assert Truncate(r0.(waiting := s.kept), s.data, s.index) == Truncate(r.(waiting := s.kept), s.data, s.index);
  }

  lemma {:induction false} DrainSame(r: Reassembler, eofIndex: nat)
    ensures Drain(r.(eofIndex := eofIndex)) == Drain(r).(eofIndex := eofIndex)
    decreases |r.waiting|
  {
    TrimShrinks(r.waiting, r.waitIndex);
    var m := Trim(r.waiting, r.waitIndex);
    if m != [] && m[0].start == r.waitIndex {
      DrainSame(WriteOut(r.(waiting := m[1..]), m[0].data), eofIndex);
    }
  }

  /**
   The input ends as soon as a FIN has been seen and no byte is waiting. So it ends with all `|p.bytes|` bytes
   written unless a FIN finds a gap with nothing waiting behind it.
   */
  lemma EndsCompleteIff(rc: Receiver, seg: Segment, isn: u32, p: Progress)
    requires ReceiverInv(rc, isn, p) && Emitted(seg, isn, p) && |p.bytes| < HALF && !rc.reassembler.output.ended
    ensures var r' := Receive(rc, seg).reassembler;
      (r'.output.ended ==> r'.output.written == |p.bytes|) <==> !GapAtFin(rc, seg, |p.bytes|)
  {
    ReceiveInv(rc, seg, isn, p);
    if seg.header.syn || rc.synSet {
      TakeSynInv(rc, seg, isn, p);
      var rc1 := TakeSyn(rc, seg);
      var rc2 := TakenPush(rc1, seg, isn, p);
      GapAfterPushIff(rc.reassembler, seg.payload, PayloadIndex(rc, seg), seg.header.fin, |p.bytes|);
    }
  }

  /** What the receiver's FIN check finds: the state after the push, ended only if nothing waits. */
  lemma TakenPush(rc: Receiver, seg: Segment, isn: u32, p: Progress) returns (rc': Receiver)
    requires rc.synSet && ReceiverInv(rc, isn, p) && Emitted(seg, isn, p) && |p.bytes| < HALF
    requires !rc.reassembler.output.ended
    ensures rc' == TakeData(rc, seg) && Inv(rc'.reassembler) && rc'.finSet == rc.finSet
    ensures var r := Push(rc.reassembler, seg.payload, StreamIndex(rc, seg), seg.header.fin);
      rc'.reassembler.waiting == r.waiting && rc'.reassembler.waitIndex == r.waitIndex
    ensures rc'.reassembler.output.ended ==>
      (rc.finSet || seg.header.fin) && Unassembled(rc'.reassembler.waiting) == 0
  {
    TakeDataInv(rc, seg, isn, p);
    rc' := TakeData(rc, seg);
    if seg.payload != [] {
      var a: nat :| a <= |p.bytes| + 2 && SegAt(seg, a, isn, p);
      TrueIndex(rc, seg, a, isn, p);
    }
    if rc'.reassembler.output.ended {
      PushEndsEmpty(rc.reassembler, seg.payload, StreamIndex(rc, seg), seg.header.fin);
    }
  }

  /** It can end early: of one byte and a FIN sent, only the FIN arrives, and the byte is acknowledged with it. */
  lemma EndsEarly()
    ensures var p := Progress(true, [7], true);
      var rc := NewReceiver(10).(synSet := true);
      var seg := Segment(BLANK.(seqno := 2, fin := true), []);
      && ReceiverInv(rc, 0, p) && Emitted(seg, 0, p) && GapAtFin(rc, seg, |p.bytes|)
      && Receive(rc, seg).reassembler.output.ended
      && Receive(rc, seg).reassembler.output.written == 0
      && Ackno(Receive(rc, seg)) == Some(2)
  {
    var p := Progress(true, [7], true);
    var seg := Segment(BLANK.(seqno := 2, fin := true), []);
    assert SegAt(seg, 2, 0, p);
  }

  /** In the window, a segment that comes out of order never ends the input early. */
  lemma NoGapOutOfOrder(rc: Receiver, seg: Segment, total: nat)
    requires Complete(rc.reassembler) && seg.payload != []
    requires rc.reassembler.waitIndex < PayloadIndex(rc, seg) < Edge(rc.reassembler)
    ensures !GapAtFin(rc, seg, total)
  {
    NeverLost(rc.reassembler, seg.payload, PayloadIndex(rc, seg));
  }
}
