/** The receiver as an object. */
module TCPReceivers {
  import opened Wrappers
  import opened Wrapping
  import opened Segments
  import opened StreamReassemblers
  import opened Receiving

  class TCPReceiver {
    const reassembler: StreamReassembler
    const capacity: nat
    var synSet: bool
    var finSet: bool
    var initSeqno: u32

    function State(): Receiver
      reads this, reassembler, reassembler.output
    {
      Receiver(reassembler.State(), capacity, synSet, finSet, initSeqno)
    }

    ghost predicate Valid()
      reads this, reassembler, reassembler.output
    {
      reassembler.Valid() && capacity == reassembler.capacity
    }

    constructor (capacity: nat)
      requires capacity < U64
      ensures Valid() && State() == NewReceiver(capacity)
      ensures fresh(reassembler) && fresh(reassembler.output)
    {
      this.reassembler := new StreamReassembler(capacity);
      this.capacity := capacity;
      synSet, finSet, initSeqno := false, false, 0;
    }

    method PushPayload(seg: Segment)
      requires Valid()
      modifies reassembler, reassembler.output
      ensures Valid() && State() == TakeData(old(State()), seg)
    {
      if seg.payload != [] {
        if seg.header.syn || seg.header.seqno != initSeqno {
          var seqno := if seg.header.syn then seg.header.seqno else (seg.header.seqno - 1) % U32;
          var index := Unwrap(seqno, initSeqno, reassembler.waitIndex);
          reassembler.PushSubstring(seg.payload, index, seg.header.fin);
        }
      }
    }

    /** From the first FIN on, the input ends as soon as no byte is waiting. */
    method CheckFin(seg: Segment)
      requires Valid()
      modifies this`finSet, reassembler.output
      ensures Valid() && State() == TakeFin(old(State()), seg)
    {
      if seg.header.fin || finSet {
        finSet := true;
        var waiting := reassembler.UnassembledBytes();
        if waiting == 0 {
          reassembler.output.EndInput();
        }
      }
    }

    method SegmentReceived(seg: Segment)
      requires Valid()
      modifies this, reassembler, reassembler.output
      ensures Valid() && State() == Receive(old(State()), seg)
    {
      if !seg.header.syn && !synSet {
        return;
      }
      if !synSet {
        synSet := true;
        initSeqno := seg.header.seqno;
      }
      assert State() == TakeSyn(old(State()), seg);
      PushPayload(seg);
      CheckFin(seg);
    }

    method GetAckno() returns (res: Option<u32>)
      ensures res == Ackno(State())
    {
      res := None;
      if synSet {
        var index := reassembler.waitIndex + 1;
        if reassembler.output.inputEnded {
          index := index + 1;
        }
        res := Some(Wrap(index, initSeqno));
      }
    }

    /** Never more than the capacity, and never negative. */
    method GetWindowSize() returns (size: nat)
      requires Valid()
      ensures size == WindowSize(State()) && size <= capacity
    {
      size := capacity - |reassembler.output.buf|;
    }
  }
}
