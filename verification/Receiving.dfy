/**
 The receiving half of a TCP endpoint: segments become substrings for the reassembler, and the reassembler's
 progress becomes acknowledgement numbers.
 */
module Receiving {
  import opened Wrappers
  import opened Wrapping
  import opened Segments
  import opened Reassembly

  datatype Receiver = Receiver(reassembler: Reassembler, capacity: nat, synSet: bool, finSet: bool, initSeqno: u32)

  function NewReceiver(capacity: nat): Receiver {
    Receiver(Fresh(capacity), capacity, false, false, 0)
  }

  /** The stream index of a segment's first byte: without SYN, one before its sequence number. */
  function StreamIndex(rc: Receiver, seg: Segment): nat {
    var seqno := if seg.header.syn then seg.header.seqno else (seg.header.seqno - 1) % U32;
    Unwrap(seqno, rc.initSeqno, rc.reassembler.waitIndex)
  }

  function TakeSyn(rc: Receiver, seg: Segment): Receiver {
    if rc.synSet then rc else rc.(synSet := true, initSeqno := seg.header.seqno)
  }

  function TakeData(rc: Receiver, seg: Segment): Receiver {
    if seg.payload != [] && (seg.header.syn || seg.header.seqno != rc.initSeqno)
    then rc.(reassembler := Push(rc.reassembler, seg.payload, StreamIndex(rc, seg), seg.header.fin))
    else rc
  }

  function TakeFin(rc: Receiver, seg: Segment): Receiver {
    if seg.header.fin || rc.finSet then
      var r := rc.reassembler;
      rc.(finSet := true,
          reassembler := if Unassembled(r.waiting) == 0 then r.(output := r.output.EndInput()) else r)
    else rc
  }

  function Receive(rc: Receiver, seg: Segment): Receiver {
    if !seg.header.syn && !rc.synSet then rc
    else TakeFin(TakeData(TakeSyn(rc, seg), seg), seg)
  }

  function Ackno(rc: Receiver): Option<u32> {
    if !rc.synSet then None
    else Some(Wrap(rc.reassembler.waitIndex + (if rc.reassembler.output.ended then 2 else 1), rc.initSeqno))
  }

  function WindowSize(rc: Receiver): int { rc.capacity - |rc.reassembler.output.buf| }
}
