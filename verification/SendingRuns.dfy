/**
 Whole runs of a sender, against a peer that may acknowledge anything at all.
 */
module SendingRuns {
  import opened Wrapping
  import opened Sending
  import opened SendingProofs

  datatype Event =
    | Writing(data: seq<Byte>)
    | Ending
    | Filling
    | Acking(ackno: u32, window: u16)
    | Ticking(ms: nat)
    | Probing(rst: bool)

  /** The sender and every byte its stream has accepted. */
  datatype Tracked = Tracked(s: Sender, accepted: seq<Byte>)

  function Step(t: Tracked, e: Event): Tracked {
    match e
    case Writing(data) =>
      Tracked(t.s.(stream := t.s.stream.Write(data)), t.accepted + data[..t.s.stream.Accepted(data)])
    case Ending => t.(s := t.s.(stream := t.s.stream.EndInput()))
    case Filling => t.(s := FillWindow(t.s))
    case Acking(ackno, window) => t.(s := AckReceived(t.s, ackno, window))
    case Ticking(ms) => t.(s := Tick(t.s, ms))
    case Probing(rst) => t.(s := SendEmpty(t.s, false, false, rst))
  }

  function Run(capacity: nat, rto: u16, isn: u32, events: seq<Event>): Tracked {
    if events == [] then Tracked(NewSender(capacity, rto, isn), [])
    else Step(Run(capacity, rto, isn, events[..|events|-1]), events[|events|-1])
  }

  lemma StepInv(t: Tracked, e: Event) returns (t': Tracked)
    requires SenderInv(t.s, t.accepted) && |t.accepted| < U64 - HALF - 2
    ensures t' == Step(t, e) && SenderInv(t'.s, t'.accepted) && |t.accepted| <= |t'.accepted|
  {
    t' := Step(t, e);
    match e
    case Writing(data) => WriteInv(t.s, data, t.accepted);
    case Ending => EndInputInv(t.s, t.accepted);
    case Filling => FillWindowInv(t.s, t.accepted);
    case Acking(ackno, window) => var k, segs := AckReceivedExact(t.s, ackno, window, t.accepted);
    case Ticking(ms) => TickInv(t.s, ms, t.accepted);
    case Probing(rst) => SendEmptyInv(t.s, rst, t.accepted);
  }

  /**
   In every reachable state: outstanding segments are contiguous, end at the next sequence number, carry the matching
   slices of the stream and total at most 65535; the next number is SYN + bytes read + FIN; the timer is active exactly
   while something is outstanding; the timeout has doubled once per retry.
   */
  lemma {:induction false} RunInv(capacity: nat, rto: u16, isn: u32, events: seq<Event>)
    requires |Run(capacity, rto, isn, events).accepted| < U64 - HALF - 2
    ensures var t := Run(capacity, rto, isn, events); SenderInv(t.s, t.accepted)
  {
    if events == [] {
      NewSenderInv(capacity, rto, isn);
    } else {
      var before, last := events[..|events|-1], events[|events|-1];
      RunInv(capacity, rto, isn, before);
      var t' := StepInv(Run(capacity, rto, isn, before), last);
    }
  }
}
